/** What each action needs and does, in terms of the record's own fields. */
module Effects {
  import opened Wrappers
  import opened Bytes
  import opened Protocol
  import opened Sequences
  import opened Engine
  import opened Replay
  import opened Invariants
  import opened Agreement

  /** The action is for this game and the table stands in this class. */
  predicate At(st: RoundState, a: SignedAction, cls: StateClass) {
    a.gameId == st.gameId && st.stateClass == cls
  }

  /** Another game's action is stale; one that the class does not list is refused, a recovery excepted. */
  lemma WrongGameOrClass(impl: Impl, st: RoundState, a: SignedAction, rs: RuleSet, height: int)
    ensures Apply(impl, st, a, rs, height) == Err(StaleState) <==> a.gameId != st.gameId
    ensures a.gameId == st.gameId && a.body != Recovery && TypeOf(a.body) !in LegalActions(st.stateClass) ==>
              Apply(impl, st, a, rs, height) == Err(InvalidActionForState)
  {
  }

  /** A new table: open seats, nobody there, no money, no cards, the two deadlines as given. */
  lemma NewTable(gameId: bytes, ruleSetHash: bytes, deadline: int)
    ensures var st := InitialState(gameId, ruleSetHash, deadline);
            st.stateClass == S1SeatOpen && st.gameId == gameId && st.ruleSetHash == ruleSetHash &&
            st.roundNumber == 0 && st.actingSeat.None? && st.players == [] && st.potValue == 0 &&
            st.visibleCards == [] && st.hiddenCommitmentRefs == [] && st.allowedActions == LegalActions(S1SeatOpen) &&
            st.decisionDeadline.None? && st.recoveryDeadline == Some(deadline) && st.successorTemplateHashes == [] &&
            st.combinedEntropy.None? && st.deckCommitmentHash.None? && st.concealedDeck.None? &&
            st.priorStateHash.None? && st.stateHash == Zeros(32)
  {
  }

  // ----- seating -----

  /** A fresh record: the key is also the identity, nothing is committed, revealed or held. */
  predicate Fresh(p: PlayerState, seat: int, key: bytes, stake: int) {
    p.seat == seat && p.playerId == key && p.pubkey == key && p.status == Joined && p.stakeAtRisk == stake &&
    p.stakeOutpoint.None? && !p.entropyCommitted && p.commitmentHash.None? && !p.entropyRevealed &&
    p.entropyValue.None? && p.concealedCardRefs == [] && p.preferences == map[]
  }

  predicate Free(players: seq<PlayerState>, seat: int) {
    forall i :: 0 <= i < |players| ==> players[i].seat != seat
  }

  lemma TakenSeat(players: seq<PlayerState>, seat: int)
    ensures seat in SeatsOf(players) <==> !Free(players, seat)
  {
    if i :| 0 <= i < |players| && players[i].seat == seat {
      assert SeatsOf(players)[i] == seat;
    }
  }

  /** A join without a seat takes the number of players already seated. */
  lemma JoinIs(impl: Impl, st: RoundState, a: SignedAction, rs: RuleSet, height: int, seat: int)
    requires a.body.Join? && seat == if a.seat.Some? then a.seat.value else |st.players|
    ensures Apply(impl, st, a, rs, height).Ok? <==>
              At(st, a, S1SeatOpen) && a.body.stakeAmount == rs.stakeAmount && |st.players| < rs.playerCountMax &&
              (impl.TypeScript? ==> 0 <= seat <= MAX_SAFE) && Free(st.players, seat)
    ensures Apply(impl, st, a, rs, height).Ok? ==>
              var st' := Apply(impl, st, a, rs, height).value;
              |st'.players| == |st.players| + 1 && st'.players[..|st.players|] == st.players &&
              Fresh(st'.players[|st.players|], seat, a.body.playerPubkey, rs.stakeAmount) &&
              st' == st.(players := st'.players, priorStateHash := Some(st.stateHash))
  {
    TakenSeat(st.players, seat);
  }

  lemma JoinRefusals(impl: Impl, st: RoundState, a: SignedAction, rs: RuleSet, height: int)
    requires a.body.Join? && At(st, a, S1SeatOpen) && Apply(impl, st, a, rs, height).Err?
    ensures match Apply(impl, st, a, rs, height).error
            case InvalidStakeAmount => a.body.stakeAmount != rs.stakeAmount
            case TableFull => |st.players| >= rs.playerCountMax
            case PlayerAlreadySeated =>
              !Free(st.players, if a.seat.Some? then a.seat.value else |st.players|)
            case Thrown => impl.TypeScript?
            case _ => false
  {
    TakenSeat(st.players, if a.seat.Some? then a.seat.value else |st.players|);
  }

  lemma LockIs(impl: Impl, st: RoundState, a: SignedAction, rs: RuleSet, height: int)
    requires a.body == TableLock
    ensures Apply(impl, st, a, rs, height) ==
            if At(st, a, S1SeatOpen) && |st.players| >= rs.playerCountMin
            then Ok(st.(stateClass := S3EntropyCommit, allowedActions := [EntropyCommitT],
                        priorStateHash := Some(st.stateHash)))
            else Err(if a.gameId != st.gameId then StaleState
                     else if st.stateClass != S1SeatOpen then InvalidActionForState else TableNotLockable)
  {
  }

  // ----- entropy -----

  lemma SeatedAt(players: seq<PlayerState>, i: nat)
    requires Distinct(SeatsOf(players)) && i < |players|
    ensures FindSeat(players, players[i].seat) == i
  {
    var seats := SeatsOf(players);
    assert seats[i] == players[i].seat;
    var k := IndexOf(seats, seats[i]);
    assert seats[k] == seats[i];
  }

  /** One record changes. */
  predicate OneChanged(players: seq<PlayerState>, players': seq<PlayerState>, i: nat, p: PlayerState) {
    |players'| == |players| && i < |players| && players'[i] == p &&
    forall k :: 0 <= k < |players| && k != i ==> players'[k] == players[k]
  }

  lemma CommitIs(impl: Impl, st: RoundState, a: SignedAction, rs: RuleSet, height: int, i: nat)
    requires a.body.EntropyCommit? && Distinct(SeatsOf(st.players)) && i < |st.players|
    requires a.seat == Some(st.players[i].seat)
    ensures Apply(impl, st, a, rs, height).Ok? <==> At(st, a, S3EntropyCommit) && !st.players[i].entropyCommitted
    ensures Apply(impl, st, a, rs, height).Ok? ==>
              var st' := Apply(impl, st, a, rs, height).value;
              OneChanged(st.players, st'.players, i, st.players[i].(
                entropyCommitted := true, commitmentHash := Some(a.body.commitmentHash))) &&
              var done := forall k :: 0 <= k < |st.players| ==> st.players[k].entropyCommitted || k == i;
              st' == st.(players := st'.players, stateClass := if done then S4EntropyReveal else S3EntropyCommit,
                         allowedActions := if done then [EntropyRevealT] else [EntropyCommitT],
                         priorStateHash := Some(st.stateHash))
    ensures At(st, a, S3EntropyCommit) && st.players[i].entropyCommitted ==>
              Apply(impl, st, a, rs, height) == Err(InvalidStateTransition)
  {
    SeatedAt(st.players, i);
  }

  lemma RevealIs(impl: Impl, st: RoundState, a: SignedAction, rs: RuleSet, height: int, i: nat)
    requires a.body.EntropyReveal? && Distinct(SeatsOf(st.players)) && i < |st.players|
    requires a.seat == Some(st.players[i].seat)
    ensures Apply(impl, st, a, rs, height).Ok? <==>
              At(st, a, S4EntropyReveal) && st.players[i].entropyCommitted && !st.players[i].entropyRevealed
    ensures Apply(impl, st, a, rs, height).Ok? ==>
              var st' := Apply(impl, st, a, rs, height).value;
              OneChanged(st.players, st'.players, i, st.players[i].(
                entropyRevealed := true, entropyValue := Some(a.body.entropy), status := Active)) &&
              var done := forall k :: 0 <= k < |st.players| ==> st.players[k].entropyRevealed || k == i;
              st' == st.(players := st'.players, stateClass := if done then S5DeckCommitted else S4EntropyReveal,
                         allowedActions := if done then [CardRevealT, DealConcealedT] else [EntropyRevealT],
                         priorStateHash := Some(st.stateHash))
    ensures At(st, a, S4EntropyReveal) && (!st.players[i].entropyCommitted || st.players[i].entropyRevealed) ==>
              Apply(impl, st, a, rs, height) == Err(InvalidStateTransition)
  {
    SeatedAt(st.players, i);
  }

  /** Commitments, reveals and folds need a seat that somebody holds. */
  lemma NobodyThere(impl: Impl, st: RoundState, a: SignedAction, rs: RuleSet, height: int)
    requires a.body.EntropyCommit? || a.body.EntropyReveal? || (a.body == Fold && Dealt(impl, st))
    requires a.gameId == st.gameId && TypeOf(a.body) in LegalActions(st.stateClass)
    requires st.stateClass != S2TableLocked
    ensures a.seat.None? ==> Apply(impl, st, a, rs, height) == Err(SeatOutOfRange)
    ensures a.seat.Some? && Free(st.players, a.seat.value) ==>
              Apply(impl, st, a, rs, height) == Err(PlayerNotSeated)
  {
    if a.seat.Some? {
      TakenSeat(st.players, a.seat.value);
    }
  }

  // ----- cards and play -----

  /** Three reveals in round 0, two in later rounds; the first joiner acts first. */
  lemma ShowIs(impl: Impl, st: RoundState, a: SignedAction, rs: RuleSet, height: int)
    requires a.body.CardReveal? && st.players != []
    ensures Apply(impl, st, a, rs, height).Ok? <==>
              a.gameId == st.gameId && st.stateClass in {S5DeckCommitted, S6CardRevealFirst, S9CardRevealThird}
    ensures Apply(impl, st, a, rs, height).Ok? ==>
              var st' := Apply(impl, st, a, rs, height).value;
              |st'.visibleCards| == |st.visibleCards| + 1 &&
              st'.visibleCards[..|st.visibleCards|] == st.visibleCards &&
              st'.visibleCards[|st.visibleCards|] == a.body.proof.revealedCard &&
              (st.stateClass == S5DeckCommitted ==>
                st' == st.(visibleCards := st'.visibleCards, stateClass := S6CardRevealFirst,
                           allowedActions := [CardRevealT], priorStateHash := Some(st.stateHash))) &&
              (st.stateClass == S6CardRevealFirst ==>
                st' == st.(visibleCards := st'.visibleCards, stateClass := S8BetDecision,
                           actingSeat := if st.actingSeat.None? then Some(st.players[0].seat) else st.actingSeat,
                           allowedActions := [BetT, PassT, TimeoutT, FoldT],
                           priorStateHash := Some(st.stateHash))) &&
              (st.stateClass == S9CardRevealThird ==>
                st' == st.(visibleCards := st'.visibleCards, stateClass := S10SettledRound,
                           allowedActions := [SettleT], priorStateHash := Some(st.stateHash)))
  {
  }

  lemma DealIs(impl: Impl, st: RoundState, a: SignedAction, rs: RuleSet, height: int)
    requires a.body.DealConcealed? && rs.deckFormat > 0 && DeckShape(st)
    ensures Apply(impl, st, a, rs, height).Ok? <==>
              At(st, a, S5DeckCommitted) && st.concealedDeck.None? && |a.body.cards| == rs.deckFormat &&
              (forall i :: 0 <= i < |a.body.cards| ==>
                0 <= a.body.cards[i].commitment.position < rs.deckFormat) &&
              forall i, j :: 0 <= i < |a.body.cards| && 0 <= j < |a.body.cards| && i != j ==>
                a.body.cards[i].commitment.position != a.body.cards[j].commitment.position
    ensures Apply(impl, st, a, rs, height).Ok? ==>
              Apply(impl, st, a, rs, height).value ==
                st.(concealedDeck := Some(a.body.cards), priorStateHash := Some(st.stateHash))
    ensures At(st, a, S5DeckCommitted) && Apply(impl, st, a, rs, height).Err? ==>
              Apply(impl, st, a, rs, height) == Err(InvalidStateTransition)
  {
  }

  lemma BetIs(impl: Impl, st: RoundState, a: SignedAction, rs: RuleSet, height: int)
    requires a.body.Bet?
    ensures var pot, amount := st.potValue + a.body.amount, a.body.amount;
            var inRange := if impl.TypeScript? then 0 <= pot <= MAX_SAFE else pot <= 0x7FFF_FFFF_FFFF_FFFF;
            Apply(impl, st, a, rs, height) ==
            if At(st, a, S8BetDecision) && rs.minBet <= amount <= rs.maxBet && inRange
            then Ok(st.(potValue := pot, stateClass := S9CardRevealThird, allowedActions := [CardRevealT],
                        priorStateHash := Some(st.stateHash)))
            else Err(if a.gameId != st.gameId then StaleState
                     else if st.stateClass != S8BetDecision then InvalidActionForState
                     else if amount < rs.minBet || amount > rs.maxBet then InvalidBetAmount
                     else if impl.TypeScript? then Thrown else InvalidStateTransition)
  {
  }

  lemma PassIs(impl: Impl, st: RoundState, a: SignedAction, rs: RuleSet, height: int)
    requires a.body == Pass
    ensures Apply(impl, st, a, rs, height) ==
            if At(st, a, S8BetDecision)
            then Ok(st.(stateClass := S11RotateTurn, allowedActions := [RotateTurnT],
                        priorStateHash := Some(st.stateHash)))
            else Err(if a.gameId != st.gameId then StaleState else InvalidActionForState)
  {
  }

  /** A fold needs a dealt deck in which the folder still holds an assigned card. */
  lemma FoldIs(impl: Impl, st: RoundState, a: SignedAction, rs: RuleSet, height: int, i: nat)
    requires a.body == Fold && Distinct(SeatsOf(st.players)) && i < |st.players|
    requires a.seat == Some(st.players[i].seat)
    ensures Apply(impl, st, a, rs, height).Ok? <==>
              a.gameId == st.gameId && st.stateClass in {S7CardRevealSecond, S8BetDecision} &&
              st.concealedDeck.Some? &&
              exists k :: 0 <= k < |st.concealedDeck.value| &&
                st.concealedDeck.value[k].holderPubkey == st.players[i].pubkey &&
                st.concealedDeck.value[k].lifecycle == ASSIGNED_CONCEALED
    ensures Apply(impl, st, a, rs, height).Ok? ==>
              var st' := Apply(impl, st, a, rs, height).value;
              OneChanged(st.players, st'.players, i, st.players[i].(status := Folded)) &&
              st' == st.(players := st'.players, concealedDeck := st'.concealedDeck, stateClass := S11RotateTurn,
                         allowedActions := [RotateTurnT], priorStateHash := Some(st.stateHash))
    ensures a.gameId == st.gameId && Apply(impl, st, a, rs, height).Err? ==>
              Apply(impl, st, a, rs, height) == Err(InvalidActionForState)
  {
    SeatedAt(st.players, i);
  }

  lemma TimeoutIs(impl: Impl, st: RoundState, a: SignedAction, rs: RuleSet, height: int)
    requires a.body == Timeout
    ensures Apply(impl, st, a, rs, height) ==
            if At(st, a, S8BetDecision) && st.decisionDeadline.Some? && height >= st.decisionDeadline.value
            then Ok(st.(stateClass := S11RotateTurn, allowedActions := [RotateTurnT],
                        priorStateHash := Some(st.stateHash)))
            else Err(if a.gameId != st.gameId then StaleState
                     else if st.stateClass != S8BetDecision then InvalidActionForState else TimeoutNotMature)
  {
  }

  lemma CloseIs(impl: Impl, st: RoundState, a: SignedAction, rs: RuleSet, height: int)
    requires a.body == TableClose
    ensures Apply(impl, st, a, rs, height) ==
            if At(st, a, S12TableClose)
            then Ok(st.(allowedActions := [], priorStateHash := Some(st.stateHash)))
            else Err(if a.gameId != st.gameId then StaleState else InvalidActionForState)
  {
  }

  /** Why a settlement is refused; what it does is Ledger's subject. */
  lemma SettleRefusals(impl: Impl, st: RoundState, a: SignedAction, rs: RuleSet, height: int)
    requires a.body == Settle && Apply(impl, st, a, rs, height).Err?
    ensures var e := Apply(impl, st, a, rs, height).error;
            (e == StaleState <==> a.gameId != st.gameId) &&
            (e == InvalidActionForState <==> a.gameId == st.gameId && st.stateClass != S10SettledRound) &&
            (e == SeatOutOfRange <==>
              At(st, a, S10SettledRound) && |st.visibleCards| == 3 && st.actingSeat.None?) &&
            (e == Thrown ==> impl.TypeScript?) &&
            e in {StaleState, InvalidActionForState, SeatOutOfRange, InvalidStateTransition, Thrown}
    ensures At(st, a, S10SettledRound) && |st.visibleCards| != 3 ==>
              Apply(impl, st, a, rs, height) == Err(InvalidStateTransition)
  {
  }

  // ----- rotation -----

  /** next is the smallest seat above this one. */
  predicate NextAbove(players: seq<PlayerState>, seat: int, next: int) {
    next > seat && !Free(players, next) &&
    forall i :: 0 <= i < |players| ==> players[i].seat <= seat || players[i].seat >= next
  }

  predicate Highest(players: seq<PlayerState>, seat: int) {
    forall i :: 0 <= i < |players| ==> players[i].seat <= seat
  }

  lemma SeatsAreSeats(players: seq<PlayerState>, x: int)
    requires Distinct(SeatsOf(players))
    ensures x in SortedSeats(players) <==> !Free(players, x)
  {
    SortedSeatsFacts(players);
    TakenSeat(players, x);
  }

  lemma NextOfHighest(players: seq<PlayerState>, seat: int)
    requires Distinct(SeatsOf(players)) && !Free(players, seat) && Highest(players, seat)
    ensures SortedSeats(players) != [] && NextSeat(SortedSeats(players), seat) == SortedSeats(players)[0]
  {
    var seats := SortedSeats(players);
    SortedSeatsFacts(players);
    SeatsAreSeats(players, seat);
    NextInCycle(seats, seat);
    var i := IndexOf(seats, seat);
    if i < |seats| - 1 {
      SeatsAreSeats(players, seats[i + 1]);
    }
  }

  lemma NextInList(s: seq<int>, x: int, next: int)
    requires Increasing(s) && x in s && next in s && next > x && forall y :: y in s ==> y <= x || y >= next
    ensures NextSeat(s, x) == next != s[0]
  {
    NextInCycle(s, x);
    var i, k := IndexOf(s, x), IndexOf(s, next);
    assert s[i] == x && s[k] == next && i < k;
    assert s[i + 1] in s;
  }

  lemma NextIsAbove(players: seq<PlayerState>, seat: int, next: int)
    requires Distinct(SeatsOf(players)) && !Free(players, seat) && NextAbove(players, seat, next)
    ensures SortedSeats(players) != [] && NextSeat(SortedSeats(players), seat) == next != SortedSeats(players)[0]
  {
    SortedSeatsFacts(players);
    forall y
      ensures y in SortedSeats(players) <==> !Free(players, y)
    {
      SeatsAreSeats(players, y);
    }
    NextInList(SortedSeats(players), seat, next);
  }

  /** After the highest seat the table closes. */
  lemma RotateCloses(impl: Impl, st: RoundState, a: SignedAction, rs: RuleSet, height: int)
    requires a.body == RotateTurn && At(st, a, S11RotateTurn) && Distinct(SeatsOf(st.players)) && st.actingSeat.Some?
    requires !Free(st.players, st.actingSeat.value) && Highest(st.players, st.actingSeat.value)
    ensures Apply(impl, st, a, rs, height) ==
            Ok(st.(stateClass := S12TableClose, allowedActions := [TableCloseT],
                   priorStateHash := Some(st.stateHash)))
  {
    NextOfHighest(st.players, st.actingSeat.value);
  }

  /** Otherwise the next higher seat opens a new round without visible cards. */
  lemma RotateOpens(impl: Impl, st: RoundState, a: SignedAction, rs: RuleSet, height: int, next: int)
    requires a.body == RotateTurn && At(st, a, S11RotateTurn) && Distinct(SeatsOf(st.players)) && st.actingSeat.Some?
    requires !Free(st.players, st.actingSeat.value) && NextAbove(st.players, st.actingSeat.value, next)
    ensures Apply(impl, st, a, rs, height) ==
            if impl.TypeScript? && !(0 <= st.roundNumber + 1 <= MAX_SAFE) then Err(Thrown)
            else Ok(st.(roundNumber := st.roundNumber + 1, actingSeat := Some(next), visibleCards := [],
                        stateClass := S6CardRevealFirst, allowedActions := [CardRevealT],
                        priorStateHash := Some(st.stateHash)))
  {
    NextIsAbove(st.players, st.actingSeat.value, next);
  }

  lemma RotateElsewhere(impl: Impl, st: RoundState, a: SignedAction, rs: RuleSet, height: int)
    requires a.body == RotateTurn && !At(st, a, S11RotateTurn)
    ensures Apply(impl, st, a, rs, height) == Err(if a.gameId != st.gameId then StaleState else InvalidActionForState)
  {
  }

  // ----- recovery -----

  lemma RecoveryIs(impl: Impl, st: RoundState, a: SignedAction, rs: RuleSet, height: int)
    requires a.body == Recovery
    ensures Apply(impl, st, a, rs, height) ==
            if a.gameId == st.gameId && st.recoveryDeadline.Some? && height >= st.recoveryDeadline.value
            then Ok(st.(stateClass := Recovered, allowedActions := [], priorStateHash := Some(st.stateHash)))
            else Err(if a.gameId != st.gameId then StaleState else RecoveryNotMature)
  {
  }

  /** No action changes what the table was created with. */
  lemma StepKeepsTerms(impl: Impl, st: RoundState, a: SignedAction, rs: RuleSet, height: int)
    requires Apply(impl, st, a, rs, height).Ok?
    ensures var st' := Apply(impl, st, a, rs, height).value;
            st'.recoveryDeadline == st.recoveryDeadline && st'.gameId == st.gameId &&
            st'.ruleSetHash == st.ruleSetHash && st'.stateHash == st.stateHash
  {
    if TouchesPlayers(a.body) {
      UpdateKeepsTerms(impl, st, a, rs, height);
    }
  }

  lemma UpdateKeepsTerms(impl: Impl, st: RoundState, a: SignedAction, rs: RuleSet, height: int)
    requires TouchesPlayers(a.body) && Apply(impl, st, a, rs, height).Ok?
    ensures var st' := Apply(impl, st, a, rs, height).value;
            st'.recoveryDeadline == st.recoveryDeadline && st'.gameId == st.gameId &&
            st'.ruleSetHash == st.ruleSetHash && st'.stateHash == st.stateHash
  {
  }

  lemma {:induction false} RunKeepsTerms(impl: Impl, st: RoundState, rs: RuleSet, log: seq<Entry>)
    requires Run(impl, st, rs, log).Ok?
    ensures var st' := Run(impl, st, rs, log).value;
            st'.recoveryDeadline == st.recoveryDeadline && st'.gameId == st.gameId &&
            st'.ruleSetHash == st.ruleSetHash && st'.stateHash == st.stateHash
    decreases |log|
  {
    if log != [] {
      var st1 := Apply(impl, st, log[0].action, rs, log[0].height).value;
      StepKeepsTerms(impl, st, log[0].action, rs, log[0].height);
      RunKeepsTerms(impl, st1, rs, log[1..]);
    }
  }

  /**
   * After any run and in every class a recovery of the game is accepted exactly from the deadline the table was
   * created with; it ends in RECOVERED with all players, money and cards as they were.
   */
  lemma RecoveryIsExact(
    impl: Impl, gameId: bytes, ruleSetHash: bytes, deadline: int, rs: RuleSet, log: seq<Entry>,
    a: SignedAction, height: int)
    requires Run(impl, InitialState(gameId, ruleSetHash, deadline), rs, log).Ok?
    requires a.body == Recovery && a.gameId == gameId
    ensures var st := Run(impl, InitialState(gameId, ruleSetHash, deadline), rs, log).value;
            Apply(impl, st, a, rs, height) ==
            if height >= deadline
            then Ok(st.(stateClass := Recovered, allowedActions := [], priorStateHash := Some(st.stateHash)))
            else Err(RecoveryNotMature)
  {
    RunKeepsTerms(impl, InitialState(gameId, ruleSetHash, deadline), rs, log);
    RecoveryIs(impl, Run(impl, InitialState(gameId, ruleSetHash, deadline), rs, log).value, a, rs, height);
  }
}
