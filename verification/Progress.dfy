/** Every run stops: how many actions a table can accept, which ones never are, and where it gets stuck. */
module Progress {
  import opened Wrappers
  import opened Bytes
  import opened Protocol
  import opened Engine
  import opened Replay
  import opened Invariants

  function Count(players: seq<PlayerState>, done: PlayerState -> bool): (n: nat)
    ensures n <= |players|
  {
    if players == [] then 0 else (if done(players[0]) then 0 else 1) + Count(players[1..], done)
  }

  function Committed(p: PlayerState): bool { p.entropyCommitted }
  function EntropyShown(p: PlayerState): bool { p.entropyRevealed }

  lemma {:induction false} CountUpdate(players: seq<PlayerState>, done: PlayerState -> bool, i: nat, p: PlayerState)
    requires i < |players| && !done(players[i]) && done(p)
    ensures Count(players[i := p], done) == Count(players, done) - 1
  {
    if i == 0 {
      assert players[i := p][1..] == players[1..];
    } else {
      assert players[i := p][1..] == players[1..][i - 1 := p];
      CountUpdate(players[1..], done, i - 1, p);
    }
  }

  lemma {:induction false} CountAll(players: seq<PlayerState>, done: PlayerState -> bool)
    ensures (forall i :: 0 <= i < |players| ==> !done(players[i])) ==> Count(players, done) == |players|
    ensures (exists i :: 0 <= i < |players| && !done(players[i])) ==> Count(players, done) >= 1
  {
    if players != [] {
      CountAll(players[1..], done);
      if i :| 0 <= i < |players| && !done(players[i]) {
        if i > 0 {
          assert !done(players[1..][i - 1]);
        }
      }
      if forall i :: 0 <= i < |players| ==> !done(players[i]) {
        assert forall i :: 0 <= i < |players[1..]| ==> !done(players[1..][i]);
      }
    }
  }

  /** How many seats act after the acting one before the table closes. */
  function SeatsAbove(st: RoundState): int
    requires st.actingSeat.Some?
  {
    |st.players| - 1 - Rank(st.players, st.actingSeat.value)
  }

  /** An upper bound on the actions, other than Recovery and TableClose, still to be accepted. */
  function Potential(rs: RuleSet, st: RoundState): int {
    var n := |st.players|;
    var later := if st.actingSeat.Some? then 3 * SeatsAbove(st) else 0;
    match st.stateClass
    case S1SeatOpen => 6 * rs.playerCountMax + 5 - n
    case S3EntropyCommit => if n == 0 then 0 else Count(st.players, Committed) + 4 * n + 4
    case S4EntropyReveal => Count(st.players, EntropyShown) + 3 * n + 4
    case S5DeckCommitted => 3 * n + if st.concealedDeck.None? then 4 else 3
    case S6CardRevealFirst => if st.roundNumber == 0 then 3 * n + 2 else 3 + later
    case S8BetDecision => later + if st.roundNumber == 0 then 4 else 2
    case S9CardRevealThird => if st.roundNumber == 0 then 3 + later else 1
    case S10SettledRound => if st.roundNumber == 0 then 2 + later else 0
    case S11RotateTurn => 1 + later
    case _ => 0
  }

  predicate Counted(body: ActionBody) {
    body != Recovery && body != TableClose
  }

  lemma ActingRank(rs: RuleSet, st: RoundState)
    requires WellFormed(rs, st) && Acting(st)
    ensures 0 <= SeatsAbove(st) < |st.players|
  {
    SortedSeatsFacts(st.players);
  }

  lemma PotentialIsNatural(rs: RuleSet, st: RoundState)
    requires WellFormed(rs, st)
    ensures Potential(rs, st) >= 0
  {
    if st.actingSeat.Some? && st.stateClass != Recovered {
      ActingRank(rs, st);
    }
  }

  lemma EntropyProgress(impl: Impl, st: RoundState, a: SignedAction, rs: RuleSet, height: int)
    requires WellFormed(rs, st) && (a.body.EntropyCommit? || a.body.EntropyReveal?)
    requires Apply(impl, st, a, rs, height).Ok?
    ensures Potential(rs, Apply(impl, st, a, rs, height).value) < Potential(rs, st)
  {
    var st' := Apply(impl, st, a, rs, height).value;
    var i := FindSeat(st.players, a.seat.value);
    if a.body.EntropyCommit? {
      CountUpdate(st.players, Committed, i, st'.players[i]);
      CountAll(st.players, Committed);
    } else {
      CountUpdate(st.players, EntropyShown, i, st'.players[i]);
      CountAll(st.players, EntropyShown);
    }
  }

  lemma CardProgress(impl: Impl, st: RoundState, a: SignedAction, rs: RuleSet, height: int)
    requires WellFormed(rs, st) && (a.body.CardReveal? || a.body.DealConcealed?) && rs.deckFormat > 0
    requires Apply(impl, st, a, rs, height).Ok?
    ensures Potential(rs, Apply(impl, st, a, rs, height).value) < Potential(rs, st)
  {
    RevealKeeps(impl, st, a, rs, height);
    if a.body.DealConcealed? {
      assert ApplyDealConcealed(impl, st, a.body.cards, rs).Ok?;
    } else {
      ShowProgress(st, a.body.proof.revealedCard, rs);
    }
  }

  lemma ShowProgress(st: RoundState, card: RevealedCard, rs: RuleSet)
    requires WellFormed(rs, st) && ApplyCardReveal(st, card).Ok? && WellFormed(rs, ApplyCardReveal(st, card).value)
    ensures Potential(rs, ApplyCardReveal(st, card).value) < Potential(rs, st)
  {
    var st' := ApplyCardReveal(st, card).value;
    if st'.actingSeat.Some? {
      ActingRank(rs, st');
    }
  }

  lemma PlayShape(impl: Impl, st: RoundState, a: SignedAction, rs: RuleSet, height: int)
    requires st.stateClass in {S8BetDecision, S10SettledRound}
    requires Counted(a.body) && Apply(impl, st, a, rs, height).Ok?
    ensures var st' := Apply(impl, st, a, rs, height).value;
            st'.actingSeat == st.actingSeat && st'.roundNumber == st.roundNumber &&
            SeatsOf(st'.players) == SeatsOf(st.players) &&
            (st'.stateClass == S11RotateTurn ||
              (st.stateClass == S8BetDecision && st'.stateClass == S9CardRevealThird)) &&
            (st.stateClass == S10SettledRound ==> |st.visibleCards| == 3)
  {
    if a.body == Fold {
      var st' := Apply(impl, st, a, rs, height).value;
      var i := FindSeat(st.players, a.seat.value);
      SameSeats(st.players, i, st'.players[i]);
    } else if a.body == Settle {
      assert SeatsOf(Apply(impl, st, a, rs, height).value.players) == SeatsOf(st.players);
    }
  }

  lemma PlayProgress(impl: Impl, st: RoundState, a: SignedAction, rs: RuleSet, height: int)
    requires WellFormed(rs, st) && st.stateClass in {S8BetDecision, S10SettledRound}
    requires Counted(a.body) && Apply(impl, st, a, rs, height).Ok?
    ensures Potential(rs, Apply(impl, st, a, rs, height).value) < Potential(rs, st)
  {
    PlayShape(impl, st, a, rs, height);
    ActingRank(rs, st);
  }

  /** What an accepted RotateTurn does to the rank of the acting seat. */
  lemma RotateResult(impl: Impl, rs: RuleSet, st: RoundState) returns (st': RoundState, i: nat)
    requires WellFormed(rs, st) && ApplyRotateTurn(impl, st).Ok?
    ensures st' == ApplyRotateTurn(impl, st).value && st'.players == st.players
    ensures st.stateClass == S11RotateTurn && st.actingSeat.Some? && st.roundNumber >= 0
    ensures i < |st.players| && i == Rank(st.players, st.actingSeat.value)
    ensures st'.stateClass == S12TableClose ||
      (st'.stateClass == S6CardRevealFirst && st'.roundNumber == st.roundNumber + 1 && st'.actingSeat.Some? &&
       Rank(st.players, st'.actingSeat.value) == i + 1)
  {
    RotateStep(impl, st);
    ActingRank(rs, st);
    st', i := ApplyRotateTurn(impl, st).value, Rank(st.players, st.actingSeat.value);
  }

  lemma RotateProgress(impl: Impl, rs: RuleSet, st: RoundState)
    requires WellFormed(rs, st) && ApplyRotateTurn(impl, st).Ok?
    ensures Potential(rs, ApplyRotateTurn(impl, st).value) < Potential(rs, st)
  {
    var st', i := RotateResult(impl, rs, st);
    RotatedPotential(rs, st, st', i);
  }

  lemma RotatedPotential(rs: RuleSet, st: RoundState, st': RoundState, i: nat)
    requires st'.players == st.players && i < |st.players|
    requires st.stateClass == S11RotateTurn && st.actingSeat.Some? && st.roundNumber >= 0
    requires i == Rank(st.players, st.actingSeat.value)
    requires st'.stateClass == S12TableClose ||
      (st'.stateClass == S6CardRevealFirst && st'.roundNumber == st.roundNumber + 1 && st'.actingSeat.Some? &&
       Rank(st.players, st'.actingSeat.value) == i + 1)
    ensures Potential(rs, st') < Potential(rs, st)
  {
  }

  lemma SeatingProgress(impl: Impl, st: RoundState, a: SignedAction, rs: RuleSet, height: int)
    requires WellFormed(rs, st) && (a.body.Join? || a.body == TableLock) && Apply(impl, st, a, rs, height).Ok?
    ensures Potential(rs, Apply(impl, st, a, rs, height).value) < Potential(rs, st)
  {
    if a.body == TableLock {
      assert !exists i :: 0 <= i < |st.players| && Committed(st.players[i]);
      CountAll(st.players, Committed);
    }
  }

  /** Every accepted action other than Recovery and TableClose uses up at least one unit. */
  lemma StepProgress(impl: Impl, st: RoundState, a: SignedAction, rs: RuleSet, height: int)
    requires WellFormed(rs, st) && rs.deckFormat > 0
    requires Counted(a.body) && Apply(impl, st, a, rs, height).Ok?
    ensures Potential(rs, Apply(impl, st, a, rs, height).value) < Potential(rs, st)
  {
    match a.body
    case Join(_, _) => SeatingProgress(impl, st, a, rs, height);
    case TableLock => SeatingProgress(impl, st, a, rs, height);
    case EntropyCommit(_, _) => EntropyProgress(impl, st, a, rs, height);
    case EntropyReveal(_, _) => EntropyProgress(impl, st, a, rs, height);
    case CardReveal(_, _) => CardProgress(impl, st, a, rs, height);
    case DealConcealed(_) => CardProgress(impl, st, a, rs, height);
    case RotateTurn => RotateProgress(impl, rs, st);
    case _ => PlayProgress(impl, st, a, rs, height);
  }

  /** Recovery and TableClose cannot restore potential. */
  lemma UncountedStep(impl: Impl, st: RoundState, a: SignedAction, rs: RuleSet, height: int)
    requires WellFormed(rs, st) && !Counted(a.body) && Apply(impl, st, a, rs, height).Ok?
    ensures Potential(rs, Apply(impl, st, a, rs, height).value) <= Potential(rs, st)
  {
    PotentialIsNatural(rs, st);
  }

  function Accepted(log: seq<Entry>): nat {
    if log == [] then 0 else (if Counted(log[0].action.body) then 1 else 0) + Accepted(log[1..])
  }

  lemma {:induction false} RunPotential(impl: Impl, st: RoundState, rs: RuleSet, log: seq<Entry>)
    requires WellFormed(rs, st) && rs.deckFormat > 0 && Run(impl, st, rs, log).Ok?
    ensures Accepted(log) + Potential(rs, Run(impl, st, rs, log).value) <= Potential(rs, st)
    decreases |log|
  {
    if log != [] {
      var a, height := log[0].action, log[0].height;
      StepKeeps(impl, st, a, rs, height);
      if Counted(a.body) {
        StepProgress(impl, st, a, rs, height);
      } else {
        UncountedStep(impl, st, a, rs, height);
      }
      RunPotential(impl, Apply(impl, st, a, rs, height).value, rs, log[1..]);
    }
  }

  /** A run from the initial state accepts at most 6 * player_count_max + 5 actions besides Recovery and TableClose. */
  lemma RunsAreBounded(
    impl: Impl, gameId: bytes, ruleSetHash: bytes, deadline: int, rs: RuleSet, log: seq<Entry>)
    requires rs.deckFormat > 0 && Run(impl, InitialState(gameId, ruleSetHash, deadline), rs, log).Ok?
    ensures Accepted(log) <= 6 * rs.playerCountMax + 5
  {
    var st := InitialState(gameId, ruleSetHash, deadline);
    RunKeeps(impl, st, rs, log);
    RunPotential(impl, st, rs, log);
    PotentialIsNatural(rs, Run(impl, st, rs, log).value);
  }

  /** RECOVERED is never left, and only another Recovery is accepted there. */
  lemma RecoveredIsFinal(impl: Impl, st: RoundState, a: SignedAction, rs: RuleSet, height: int)
    requires st.stateClass == Recovered && Apply(impl, st, a, rs, height).Ok?
    ensures a.body == Recovery && Apply(impl, st, a, rs, height).value.stateClass == Recovered
  {
  }

  /** No state of a run has a decision deadline, so Timeout is always refused. */
  lemma TimeoutIsNeverAccepted(
    impl: Impl, gameId: bytes, ruleSetHash: bytes, deadline: int, rs: RuleSet, log: seq<Entry>,
    a: SignedAction, height: int)
    requires Run(impl, InitialState(gameId, ruleSetHash, deadline), rs, log).Ok? && a.body == Timeout
    ensures Apply(impl, Run(impl, InitialState(gameId, ruleSetHash, deadline), rs, log).value, a, rs, height).Err?
  {
    RunKeeps(impl, InitialState(gameId, ruleSetHash, deadline), rs, log);
  }

  /**
   * The documentation promises a settlement in every round. The code restarts later rounds with no
   * visible card, so at S10 a Settle is accepted exactly in round 0 with payable balances, and in
   * any later round nothing but Recovery is ever accepted again.
   */
  lemma SettleOnlyInRoundZero(impl: Impl, st: RoundState, a: SignedAction, rs: RuleSet, height: int)
    requires WellFormed(rs, st) && st.stateClass == S10SettledRound && a.gameId == st.gameId
    ensures st.roundNumber == 0 && a.body == Settle ==>
              var t := ValueTransfer(Classify(st.visibleCards), st.potValue, rs.settlementRules);
              Apply(impl, st, a, rs, height).Ok? <==>
                Payable(impl, st.potValue + t.potDelta) &&
                forall i :: 0 <= i < |st.players| && Some(st.players[i].seat) == st.actingSeat ==>
                  Payable(impl, st.players[i].stakeAtRisk + t.playerDelta)
    ensures st.roundNumber != 0 && a.body != Recovery ==> Apply(impl, st, a, rs, height).Err?
  {
    if st.roundNumber == 0 && a.body == Settle {
      var t := ValueTransfer(Classify(st.visibleCards), st.potValue, rs.settlementRules);
      var paid := Pay(st.players, st.actingSeat.value, t.playerDelta);
      assert forall i :: 0 <= i < |st.players| && Some(st.players[i].seat) == st.actingSeat ==>
        paid[i].seat == st.players[i].seat && paid[i].stakeAtRisk == st.players[i].stakeAtRisk + t.playerDelta;
    }
  }
}
