/** The pot of the settled round is its one bet, and what that says about which runs settle. */
module RoundMoney {
  import opened Bytes
  import opened Protocol
  import opened Engine
  import opened Outcomes
  import opened Replay
  import opened Invariants
  import opened Progress

  function BetOf(body: ActionBody): seq<int> {
    if body.Bet? then [body.amount] else []
  }

  /** The bets of a log, in order. */
  function BetAmounts(log: seq<Entry>): seq<int> {
    if log == [] then [] else BetAmounts(log[..|log| - 1]) + BetOf(log[|log| - 1].action.body)
  }

  /** Round 0 up to its settlement; no run comes back here. */
  predicate FirstRound(st: RoundState) {
    st.roundNumber == 0 && st.stateClass !in {S11RotateTurn, S12TableClose, Recovered}
  }

  ghost predicate Staked(rs: RuleSet, players: seq<PlayerState>) {
    forall i :: 0 <= i < |players| ==> players[i].stakeAtRisk == rs.stakeAmount
  }

  /** In round 0 the pot is empty until the bet, then it is the one bet so far; the stakes are untouched. */
  ghost predicate OneBet(rs: RuleSet, st: RoundState, bets: seq<int>) {
    FirstRound(st) ==>
      Staked(rs, st.players) &&
      if st.stateClass in {S9CardRevealThird, S10SettledRound}
      then bets == [st.potValue] && rs.minBet <= st.potValue <= rs.maxBet
      else bets == [] && st.potValue == 0
  }

  // ----- one step -----

  predicate Leaves(body: ActionBody) {
    body in {Fold, Settle, RotateTurn, Pass, Timeout, TableClose, Recovery}
  }

  lemma FirstRoundIsLeft(impl: Impl, st: RoundState, a: SignedAction, rs: RuleSet, height: int)
    requires WellFormed(rs, st) && Leaves(a.body) && Apply(impl, st, a, rs, height).Ok?
    ensures !FirstRound(Apply(impl, st, a, rs, height).value)
  {
    if a.body == Fold || a.body == Settle {
      RoundEnds(impl, st, a, rs, height);
    }
  }

  lemma RoundEnds(impl: Impl, st: RoundState, a: SignedAction, rs: RuleSet, height: int)
    requires (a.body == Fold || a.body == Settle) && Apply(impl, st, a, rs, height).Ok?
    ensures Apply(impl, st, a, rs, height).value.stateClass == S11RotateTurn
  {
  }

  lemma FirstRoundIsOver(impl: Impl, st: RoundState, a: SignedAction, rs: RuleSet, height: int)
    requires WellFormed(rs, st) && !Leaves(a.body) && Apply(impl, st, a, rs, height).Ok? && !FirstRound(st)
    ensures !FirstRound(Apply(impl, st, a, rs, height).value)
  {
  }

  lemma SeatingKeepsPot(impl: Impl, st: RoundState, a: SignedAction, rs: RuleSet, height: int)
    requires a.body.Join? || a.body.EntropyCommit? || a.body.EntropyReveal?
    requires Staked(rs, st.players) && Apply(impl, st, a, rs, height).Ok?
    ensures var st' := Apply(impl, st, a, rs, height).value;
            Staked(rs, st'.players) && st'.potValue == st.potValue &&
            st.stateClass !in {S9CardRevealThird, S10SettledRound} &&
            st'.stateClass !in {S9CardRevealThird, S10SettledRound}
  {
  }

  lemma CardsKeepPot(impl: Impl, st: RoundState, a: SignedAction, rs: RuleSet, height: int)
    requires a.body == TableLock || a.body.CardReveal? || a.body.DealConcealed?
    requires Apply(impl, st, a, rs, height).Ok?
    ensures var st' := Apply(impl, st, a, rs, height).value;
            st'.players == st.players && st'.potValue == st.potValue &&
            (st'.stateClass in {S9CardRevealThird, S10SettledRound} <==> st.stateClass == S9CardRevealThird)
    ensures st.stateClass != S10SettledRound
  {
  }

  lemma StepOneBet(impl: Impl, st: RoundState, a: SignedAction, rs: RuleSet, height: int, bets: seq<int>)
    requires WellFormed(rs, st) && OneBet(rs, st, bets) && Apply(impl, st, a, rs, height).Ok?
    ensures OneBet(rs, Apply(impl, st, a, rs, height).value, bets + BetOf(a.body))
  {
    if Leaves(a.body) {
      FirstRoundIsLeft(impl, st, a, rs, height);
    } else if !FirstRound(st) {
      FirstRoundIsOver(impl, st, a, rs, height);
    } else if a.body.Join? || a.body.EntropyCommit? || a.body.EntropyReveal? {
      SeatingKeepsPot(impl, st, a, rs, height);
    } else if a.body.Bet? {
      assert ApplyBet(impl, st, a.body.amount, rs).Ok?;
    } else {
      CardsKeepPot(impl, st, a, rs, height);
    }
  }

  // ----- whole runs -----

  lemma {:induction false} RunOneBet(impl: Impl, st: RoundState, rs: RuleSet, log: seq<Entry>)
    requires WellFormed(rs, st) && OneBet(rs, st, []) && Run(impl, st, rs, log).Ok?
    ensures WellFormed(rs, Run(impl, st, rs, log).value)
    ensures OneBet(rs, Run(impl, st, rs, log).value, BetAmounts(log))
    decreases |log|
  {
    if log != [] {
      var before, e := log[..|log| - 1], log[|log| - 1];
      RunLast(impl, st, rs, log);
      RunOneBet(impl, st, rs, before);
      var st1 := Run(impl, st, rs, before).value;
      StepKeeps(impl, st1, e.action, rs, e.height);
      StepOneBet(impl, st1, e.action, rs, e.height, BetAmounts(before));
    }
  }

  /** From the bet of round 0 to its settlement the pot is that bet, the only one accepted so far. */
  lemma PotIsTheBet(
    impl: Impl, gameId: bytes, ruleSetHash: bytes, deadline: int, rs: RuleSet, log: seq<Entry>)
    requires Run(impl, InitialState(gameId, ruleSetHash, deadline), rs, log).Ok?
    ensures var st := Run(impl, InitialState(gameId, ruleSetHash, deadline), rs, log).value;
            WellFormed(rs, st) && OneBet(rs, st, BetAmounts(log))
  {
    RunOneBet(impl, InitialState(gameId, ruleSetHash, deadline), rs, log);
  }

  /** Pot and acting stake stay payable when the acting player gains this much of the bet. */
  predicate Affordable(impl: Impl, rs: RuleSet, bet: int, gain: int) {
    Payable(impl, bet - gain) && Payable(impl, rs.stakeAmount + gain)
  }

  lemma AffordableSettles(
    impl: Impl, st: RoundState, a: SignedAction, rs: RuleSet, height: int, r1: int, r2: int, r3: int)
    requires WellFormed(rs, st) && st.stateClass == S10SettledRound && st.roundNumber == 0
    requires Staked(rs, st.players) && a.gameId == st.gameId && a.body == Settle
    requires Ranks(st.visibleCards, r1, r2, r3)
    ensures Apply(impl, st, a, rs, height).Ok? <==>
              Affordable(impl, rs, st.potValue, GainByRanks(r1, r2, r3, st.potValue, rs.settlementRules))
  {
    SettleOnlyInRoundZero(impl, st, a, rs, height);
    TransferByRanks(st.visibleCards, r1, r2, r3, st.potValue, rs.settlementRules);
    var seats, seat := SeatsOf(st.players), st.actingSeat.value;
    var i :| 0 <= i < |seats| && seats[i] == seat;
    assert st.players[i].seat == seat && st.players[i].stakeAtRisk == rs.stakeAmount;
  }

  /**
   * Which runs settle, by rules, bet and cards alone: a Settle is accepted exactly at S10 of round 0, and there
   * exactly when pot and stake can bear what the ranks of the three cards make of the log's one bet.
   */
  lemma RunSettles(
    impl: Impl, gameId: bytes, ruleSetHash: bytes, deadline: int, rs: RuleSet, log: seq<Entry>,
    a: SignedAction, height: int, r1: int, r2: int, r3: int)
    requires Run(impl, InitialState(gameId, ruleSetHash, deadline), rs, log).Ok?
    requires a.body == Settle && a.gameId == gameId
    requires var st := Run(impl, InitialState(gameId, ruleSetHash, deadline), rs, log).value;
             |st.visibleCards| == 3 ==> Ranks(st.visibleCards, r1, r2, r3)
    ensures var st := Run(impl, InitialState(gameId, ruleSetHash, deadline), rs, log).value;
            st.stateClass == S10SettledRound && st.roundNumber == 0 ==>
              |st.visibleCards| == 3 && BetAmounts(log) == [st.potValue]
    ensures var st := Run(impl, InitialState(gameId, ruleSetHash, deadline), rs, log).value;
            Apply(impl, st, a, rs, height).Ok? <==>
              st.stateClass == S10SettledRound && st.roundNumber == 0 &&
              Affordable(impl, rs, BetAmounts(log)[0],
                         GainByRanks(r1, r2, r3, BetAmounts(log)[0], rs.settlementRules))
  {
    PotIsTheBet(impl, gameId, ruleSetHash, deadline, rs, log);
    RunKeepsGame(impl, InitialState(gameId, ruleSetHash, deadline), rs, log);
    var st := Run(impl, InitialState(gameId, ruleSetHash, deadline), rs, log).value;
    if st.stateClass == S10SettledRound {
      if st.roundNumber == 0 {
        AffordableSettles(impl, st, a, rs, height, r1, r2, r3);
      } else {
        SettleOnlyInRoundZero(impl, st, a, rs, height);
      }
    }
  }

  lemma {:induction false} RunKeepsGame(impl: Impl, st: RoundState, rs: RuleSet, log: seq<Entry>)
    requires Run(impl, st, rs, log).Ok?
    ensures Run(impl, st, rs, log).value.gameId == st.gameId
    decreases |log|
  {
    if log != [] {
      RunKeepsGame(impl, Apply(impl, st, log[0].action, rs, log[0].height).value, rs, log[1..]);
    }
  }

  lemma TimesSign(bet: int, m: int)
    requires bet > 0
    ensures bet * m >= 0 <==> m >= 0
  {
    if m < 0 {
      assert bet * m <= bet * -1;
    }
  }

  /** A won bet settles up to a multiplier of one, if a negative one leaves the stake payable. */
  lemma WinSettles(rs: RuleSet, bet: int, r1: int, r2: int, r3: int)
    requires bet > 0 && (r1 < r3 < r2 || r2 < r3 < r1)
    ensures var w := rs.settlementRules.winMultiplier;
            Affordable(GoRelay, rs, bet, GainByRanks(r1, r2, r3, bet, rs.settlementRules)) <==>
              w <= 1 && rs.stakeAmount + bet * w >= 0
  {
    var w := rs.settlementRules.winMultiplier;
    TimesSign(bet, 1 - w);
    assert bet * (1 - w) == bet - bet * w;
  }

  /** A lost bet settles exactly when the stake covers it and a negative multiplier does not drain the pot. */
  lemma LossSettles(rs: RuleSet, bet: int, r1: int, r2: int, r3: int)
    requires bet > 0 && (r1 + 1 < r2 || r2 + 1 < r1) && !(r1 < r3 < r2 || r2 < r3 < r1)
    ensures var l := rs.settlementRules.lossMultiplier;
            Affordable(GoRelay, rs, bet, GainByRanks(r1, r2, r3, bet, rs.settlementRules)) <==>
              l >= -1 && bet * l <= rs.stakeAmount
  {
    var l := rs.settlementRules.lossMultiplier;
    TimesSign(bet, 1 + l);
    assert bet * (1 + l) == bet + bet * l;
  }
}
