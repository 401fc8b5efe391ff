/** Where the money is: conservation over whole runs, and who a settlement pays. */
module Ledger {
  import opened Wrappers
  import opened Bytes
  import opened Protocol
  import opened Sequences
  import opened Engine
  import opened Outcomes
  import opened Replay
  import opened Invariants

  function Stakes(players: seq<PlayerState>): int {
    if players == [] then 0 else Stakes(players[..|players| - 1]) + players[|players| - 1].stakeAtRisk
  }

  /** Everything the table holds: the pot and every stake at risk. */
  function TableMoney(st: RoundState): int {
    st.potValue + Stakes(st.players)
  }

  /** What an accepted action brings in from outside: a stake, or a bet that debits nobody. */
  function Deposit(body: ActionBody): int {
    match body
    case Join(_, stake) => stake
    case Bet(amount) => amount
    case _ => 0
  }

  function Deposits(log: seq<Entry>): int {
    if log == [] then 0 else Deposit(log[0].action.body) + Deposits(log[1..])
  }

  lemma {:induction false} StakesUpdate(players: seq<PlayerState>, i: nat, p: PlayerState)
    requires i < |players|
    ensures Stakes(players[i := p]) == Stakes(players) + p.stakeAtRisk - players[i].stakeAtRisk
  {
    var n := |players| - 1;
    if i == n {
      assert players[i := p][..n] == players[..n];
    } else {
      assert players[i := p][..n] == players[..n][i := p];
      StakesUpdate(players[..n], i, p);
    }
  }

  /** With distinct seats the payment reaches one player only. */
  lemma PayIsOneUpdate(players: seq<PlayerState>, seat: int, delta: int)
    requires Distinct(SeatsOf(players)) && seat in SeatsOf(players)
    ensures var i := FindSeat(players, seat);
            0 <= i < |players| && players[i].seat == seat &&
            Pay(players, seat, delta) == players[i := players[i].(stakeAtRisk := players[i].stakeAtRisk + delta)]
  {
    var i := FindSeat(players, seat);
    assert SeatsOf(players)[i] == players[i].seat;
    forall k | 0 <= k < |players| && k != i
      ensures players[k].seat != seat
    {
      assert SeatsOf(players)[k] == players[k].seat;
    }
  }

  lemma EntropyConserves(impl: Impl, st: RoundState, a: SignedAction, rs: RuleSet, height: int)
    requires a.body.EntropyCommit? || a.body.EntropyReveal? || a.body == Fold
    requires Apply(impl, st, a, rs, height).Ok?
    ensures TableMoney(Apply(impl, st, a, rs, height).value) == TableMoney(st)
  {
    var i := FindSeat(st.players, a.seat.value);
    StakesUpdate(st.players, i, Apply(impl, st, a, rs, height).value.players[i]);
  }

  lemma PlainConserves(impl: Impl, st: RoundState, a: SignedAction, rs: RuleSet, height: int)
    requires !a.body.EntropyCommit? && !a.body.EntropyReveal? && a.body != Fold && a.body != Settle
    requires Apply(impl, st, a, rs, height).Ok?
    ensures TableMoney(Apply(impl, st, a, rs, height).value) == TableMoney(st) + Deposit(a.body)
  {
    if a.body.Join? {
      assert Apply(impl, st, a, rs, height).value.players[..|st.players|] == st.players;
    }
  }

  lemma SettleConserves(impl: Impl, st: RoundState, rs: RuleSet)
    requires WellFormed(rs, st) && ApplySettle(impl, st, rs).Ok?
    ensures TableMoney(ApplySettle(impl, st, rs).value) == TableMoney(st)
  {
    var t := ValueTransfer(Classify(st.visibleCards), st.potValue, rs.settlementRules);
    PayAdds(st.players, st.actingSeat.value, t.playerDelta);
    assert t.potDelta + t.playerDelta == 0;
  }

  lemma PayAdds(players: seq<PlayerState>, seat: int, delta: int)
    requires Distinct(SeatsOf(players)) && seat in SeatsOf(players)
    ensures Stakes(Pay(players, seat, delta)) == Stakes(players) + delta
  {
    PayIsOneUpdate(players, seat, delta);
    var i := FindSeat(players, seat);
    StakesUpdate(players, i, players[i].(stakeAtRisk := players[i].stakeAtRisk + delta));
  }

  /** An accepted action changes the table's holdings by exactly its deposit. */
  lemma StepConserves(impl: Impl, st: RoundState, a: SignedAction, rs: RuleSet, height: int)
    requires WellFormed(rs, st) && Apply(impl, st, a, rs, height).Ok?
    ensures TableMoney(Apply(impl, st, a, rs, height).value) == TableMoney(st) + Deposit(a.body)
  {
    if a.body.EntropyCommit? || a.body.EntropyReveal? || a.body == Fold {
      EntropyConserves(impl, st, a, rs, height);
    } else if a.body == Settle {
      SettleConserves(impl, st, rs);
    } else {
      PlainConserves(impl, st, a, rs, height);
    }
  }

  lemma {:induction false} RunConserves(impl: Impl, st: RoundState, rs: RuleSet, log: seq<Entry>)
    requires WellFormed(rs, st) && Run(impl, st, rs, log).Ok?
    ensures TableMoney(Run(impl, st, rs, log).value) == TableMoney(st) + Deposits(log)
    decreases |log|
  {
    if log != [] {
      StepKeeps(impl, st, log[0].action, rs, log[0].height);
      StepConserves(impl, st, log[0].action, rs, log[0].height);
      RunConserves(impl, Apply(impl, st, log[0].action, rs, log[0].height).value, rs, log[1..]);
    }
  }

  function Bets(log: seq<Entry>): int {
    if log == [] then 0
    else (if log[0].action.body.Bet? then log[0].action.body.amount else 0) + Bets(log[1..])
  }

  /** Only Join fills a seat, and it deposits the rule set's stake. */
  lemma StepSeats(impl: Impl, st: RoundState, a: SignedAction, rs: RuleSet, height: int)
    requires Apply(impl, st, a, rs, height).Ok?
    ensures |Apply(impl, st, a, rs, height).value.players| == |st.players| + if a.body.Join? then 1 else 0
    ensures a.body.Join? ==> a.body.stakeAmount == rs.stakeAmount
  {
  }

  lemma FirstSeats(impl: Impl, st: RoundState, rs: RuleSet, log: seq<Entry>) returns (st1: RoundState)
    requires Run(impl, st, rs, log).Ok? && log != []
    ensures Run(impl, st1, rs, log[1..]) == Run(impl, st, rs, log)
    ensures |st1.players| == |st.players| + if log[0].action.body.Join? then 1 else 0
    ensures Deposit(log[0].action.body) == if log[0].action.body.Join? then rs.stakeAmount else Bets([log[0]])
  {
    st1 := Apply(impl, st, log[0].action, rs, log[0].height).value;
    StepSeats(impl, st, log[0].action, rs, log[0].height);
    assert [log[0]][1..] == [];
  }

  /** Deposits are one rule-set stake for each seat filled, plus the bets. */
  lemma {:induction false} DepositsSplit(impl: Impl, st: RoundState, rs: RuleSet, log: seq<Entry>)
    requires Run(impl, st, rs, log).Ok?
    ensures Deposits(log) ==
            rs.stakeAmount * (|Run(impl, st, rs, log).value.players| - |st.players|) + Bets(log)
    decreases |log|
  {
    if log != [] {
      var st1 := FirstSeats(impl, st, rs, log);
      DepositsSplit(impl, st1, rs, log[1..]);
      assert [log[0]][1..] == [];
      OneMore(rs.stakeAmount, |Run(impl, st1, rs, log[1..]).value.players| - |st1.players|);
    }
  }

  lemma OneMore(stake: int, n: int)
    ensures stake * (n + 1) == stake * n + stake
  {
  }

  /** In every state a run reaches: pot + stakes at risk == stake_amount * seats + accepted bets. */
  lemma LedgerBalances(
    impl: Impl, gameId: bytes, ruleSetHash: bytes, deadline: int, rs: RuleSet, log: seq<Entry>)
    requires Run(impl, InitialState(gameId, ruleSetHash, deadline), rs, log).Ok?
    ensures var st := Run(impl, InitialState(gameId, ruleSetHash, deadline), rs, log).value;
            st.potValue + Stakes(st.players) == rs.stakeAmount * |st.players| + Bets(log)
  {
    var st := InitialState(gameId, ruleSetHash, deadline);
    RunConserves(impl, st, rs, log);
    DepositsSplit(impl, st, rs, log);
  }

  ghost predicate Solvent(st: RoundState) {
    st.potValue >= 0 && forall i :: 0 <= i < |st.players| ==> st.players[i].stakeAtRisk >= 0
  }

  lemma StepStaysSolvent(impl: Impl, st: RoundState, a: SignedAction, rs: RuleSet, height: int)
    requires Solvent(st) && rs.stakeAmount >= 0 && rs.minBet >= 0
    requires WellFormed(rs, st) && Apply(impl, st, a, rs, height).Ok?
    ensures Solvent(Apply(impl, st, a, rs, height).value)
  {
    if a.body == Settle {
      SettleStaysSolvent(impl, st, rs);
    } else if a.body.Join? || a.body.EntropyCommit? || a.body.EntropyReveal? || a.body == Fold {
      SeatsStaySolvent(impl, st, a, rs, height);
    } else {
      OthersKeepPlayers(impl, st, a, rs, height);
      PotStaysSolvent(impl, st, a, rs, height);
    }
  }

  lemma PotStaysSolvent(impl: Impl, st: RoundState, a: SignedAction, rs: RuleSet, height: int)
    requires !TouchesPlayers(a.body) && rs.minBet >= 0 && Apply(impl, st, a, rs, height).Ok?
    ensures Apply(impl, st, a, rs, height).value.potValue >= st.potValue
  {
  }

  lemma SeatsStaySolvent(impl: Impl, st: RoundState, a: SignedAction, rs: RuleSet, height: int)
    requires a.body.Join? || a.body.EntropyCommit? || a.body.EntropyReveal? || a.body == Fold
    requires Solvent(st) && rs.stakeAmount >= 0 && Apply(impl, st, a, rs, height).Ok?
    ensures Solvent(Apply(impl, st, a, rs, height).value)
  {
  }

  lemma SettleStaysSolvent(impl: Impl, st: RoundState, rs: RuleSet)
    requires Solvent(st) && ApplySettle(impl, st, rs).Ok?
    ensures Solvent(ApplySettle(impl, st, rs).value)
  {
    var t := ValueTransfer(Classify(st.visibleCards), st.potValue, rs.settlementRules);
    var seat, paid := st.actingSeat.value, Pay(st.players, st.actingSeat.value, t.playerDelta);
    assert forall i :: 0 <= i < |paid| && paid[i].seat == seat ==> Payable(impl, paid[i].stakeAtRisk);
    assert forall i :: 0 <= i < |paid| && paid[i].seat != seat ==> paid[i] == st.players[i];
  }

  /** Neither the pot nor any stake ever goes below zero. */
  lemma {:induction false} RunStaysSolvent(impl: Impl, st: RoundState, rs: RuleSet, log: seq<Entry>)
    requires Solvent(st) && rs.stakeAmount >= 0 && rs.minBet >= 0
    requires WellFormed(rs, st) && Run(impl, st, rs, log).Ok?
    ensures Solvent(Run(impl, st, rs, log).value)
    decreases |log|
  {
    if log != [] {
      var a, st' := log[0].action, Apply(impl, st, log[0].action, rs, log[0].height).value;
      StepKeeps(impl, st, a, rs, log[0].height);
      StepStaysSolvent(impl, st, a, rs, log[0].height);
      RunStaysSolvent(impl, st', rs, log[1..]);
    }
  }

  /**
   * A settlement moves one amount between the pot and the acting seat, decided by the ranks of the three cards.
   * The whole pot is taken for the bet.
   */
  lemma SettlePaysTheActingSeat(impl: Impl, st: RoundState, rs: RuleSet, r1: int, r2: int, r3: int)
    requires WellFormed(rs, st) && ApplySettle(impl, st, rs).Ok? && Ranks(st.visibleCards, r1, r2, r3)
    ensures var st' := ApplySettle(impl, st, rs).value;
            var gain := GainByRanks(r1, r2, r3, st.potValue, rs.settlementRules);
            st' == st.(stateClass := S11RotateTurn, players := st'.players, potValue := st.potValue - gain,
                       allowedActions := [RotateTurnT], priorStateHash := Some(st.stateHash)) &&
            |st'.players| == |st.players| &&
            forall i :: 0 <= i < |st.players| ==>
              st'.players[i] == st.players[i].(
                stakeAtRisk := st.players[i].stakeAtRisk +
                               if Some(st.players[i].seat) == st.actingSeat then gain else 0)
  {
    TransferByRanks(st.visibleCards, r1, r2, r3, st.potValue, rs.settlementRules);
  }
}
