/** The settlement preview of both engines, against the settlement itself. */
module Settlement {
  import opened Wrappers
  import opened Bytes
  import opened Protocol
  import opened Engine
  import opened Outcomes
  import opened Invariants
  import opened Ledger

  datatype SettlementResult = SettlementResult(
    stateHash: bytes, outcome: Outcome, bet: int, seat: int, amount: int, pot: int, balances: seq<int>)

  function Clamp(n: int): int { if n < 0 then 0 else n }

  predicate Satoshis(n: int) { 0 <= n <= MAX_SAFE }

  function Balances(players: seq<PlayerState>, seat: int, delta: int): (r: seq<int>)
    ensures |r| == |players|
  {
    seq(|players|, i requires 0 <= i < |players| =>
      if players[i].seat == seat then Clamp(players[i].stakeAtRisk + delta) else players[i].stakeAtRisk)
  }

  /** computeSettlement: TypeScript throws where Go clamps to zero. */
  function ComputeSettlement(impl: Impl, st: RoundState, rs: RuleSet): Result<SettlementResult, ErrorCode> {
    if st.stateClass != S10SettledRound then Err(InvalidActionForState)
    else if |st.visibleCards| != 3 || st.actingSeat.None? then Err(InvalidStateTransition)
    else
      var outcome, seat := Classify(st.visibleCards), st.actingSeat.value;
      var t := ValueTransfer(outcome, st.potValue, rs.settlementRules);
      var pot := st.potValue + t.potDelta;
      var amount := if t.playerDelta < 0 then -t.playerDelta else t.playerDelta;
      if impl.TypeScript? &&
         (!Satoshis(pot) || !Satoshis(amount) ||
          exists i :: 0 <= i < |st.players| && st.players[i].seat == seat &&
            !Satoshis(st.players[i].stakeAtRisk + t.playerDelta))
      then Err(Thrown)
      else
        Ok(SettlementResult(
          st.stateHash, outcome, st.potValue, seat, amount, Clamp(pot), Balances(st.players, seat, t.playerDelta)))
  }

  /** The relay's append loop over the players. */
  method BalanceLoop(players: seq<PlayerState>, seat: int, delta: int) returns (balances: seq<int>)
    ensures balances == Balances(players, seat, delta)
  {
    balances := [];
    for i := 0 to |players|
      invariant |balances| == i && forall k :: 0 <= k < i ==> balances[k] == Balances(players, seat, delta)[k]
    {
      if players[i].seat == seat {
        var next := players[i].stakeAtRisk + delta;
        if next < 0 {
          next := 0;
        }
        balances := balances + [next];
      } else {
        balances := balances + [players[i].stakeAtRisk];
      }
    }
  }

  /** The preview shows this state's money: its pot, and each stake in seat-list order. */
  ghost predicate Shows(r: SettlementResult, st: RoundState) {
    r.pot == st.potValue && |r.balances| == |st.players| &&
    forall i :: 0 <= i < |st.players| ==> r.balances[i] == st.players[i].stakeAtRisk
  }

  /** An accepted settlement is the one the preview shows. */
  lemma PreviewShowsSettlement(impl: Impl, st: RoundState, rs: RuleSet)
    requires ApplySettle(impl, st, rs).Ok? && (impl.TypeScript? ==> Satoshis(st.potValue))
    ensures var preview := ComputeSettlement(impl, st, rs);
            preview.Ok? && Shows(preview.value, ApplySettle(impl, st, rs).value)
  {
    var t := ValueTransfer(Classify(st.visibleCards), st.potValue, rs.settlementRules);
    var seat := st.actingSeat.value;
    var paid := Pay(st.players, seat, t.playerDelta);
    assert t.potDelta == -t.playerDelta;
    forall i | 0 <= i < |st.players| && st.players[i].seat == seat
      ensures Payable(impl, st.players[i].stakeAtRisk + t.playerDelta)
    {
      assert paid[i].seat == seat && paid[i].stakeAtRisk == st.players[i].stakeAtRisk + t.playerDelta;
    }
  }

  /** In TypeScript the preview exists exactly when the settlement is accepted. */
  lemma PreviewIsExact(st: RoundState, rs: RuleSet)
    requires Satoshis(st.potValue)
    ensures ComputeSettlement(TypeScript, st, rs).Ok? <==> ApplySettle(TypeScript, st, rs).Ok?
  {
    if ApplySettle(TypeScript, st, rs).Ok? {
      PreviewShowsSettlement(TypeScript, st, rs);
    }
  }

  function Sum(s: seq<int>): int {
    if s == [] then 0 else Sum(s[..|s| - 1]) + s[|s| - 1]
  }

  /** Clamping only adds money, and adds some exactly when a balance would have been negative. */
  lemma {:induction false} ClampingAdds(players: seq<PlayerState>, seat: int, delta: int)
    ensures Sum(Balances(players, seat, delta)) >= Stakes(Pay(players, seat, delta))
    ensures Sum(Balances(players, seat, delta)) == Stakes(Pay(players, seat, delta)) <==>
              forall i :: 0 <= i < |players| && players[i].seat == seat ==> players[i].stakeAtRisk + delta >= 0
  {
    if players != [] {
      var n := |players| - 1;
      ClampingAdds(players[..n], seat, delta);
      assert Balances(players, seat, delta)[..n] == Balances(players[..n], seat, delta);
      assert Pay(players, seat, delta)[..n] == Pay(players[..n], seat, delta);
      assert players == players[..n] + [players[n]];
    }
  }

  /** The pot and the acting seat can pay what the outcome takes from them. */
  ghost predicate CanPay(st: RoundState, rs: RuleSet)
    requires |st.visibleCards| == 3 && st.actingSeat.Some?
  {
    var t := ValueTransfer(Classify(st.visibleCards), st.potValue, rs.settlementRules);
    st.potValue + t.potDelta >= 0 &&
    forall i :: 0 <= i < |st.players| && st.players[i].seat == st.actingSeat.value ==>
      st.players[i].stakeAtRisk + t.playerDelta >= 0
  }

  /**
   * The Go preview never refuses a complete round. It adds up to the table's money exactly when pot and acting
   * seat can pay, and then the settlement is accepted; otherwise clamping makes it show more than there is and
   * the settlement is refused.
   */
  lemma GoPreviewAddsUp(st: RoundState, rs: RuleSet)
    requires WellFormed(rs, st) && st.stateClass == S10SettledRound && |st.visibleCards| == 3
    ensures var preview := ComputeSettlement(GoRelay, st, rs);
            preview.Ok? && preview.value.pot + Sum(preview.value.balances) >= TableMoney(st) &&
            (preview.value.pot + Sum(preview.value.balances) == TableMoney(st) <==> CanPay(st, rs)) &&
            (ApplySettle(GoRelay, st, rs).Ok? <==> CanPay(st, rs))
  {
    var t := ValueTransfer(Classify(st.visibleCards), st.potValue, rs.settlementRules);
    var seat := st.actingSeat.value;
    ClampingAdds(st.players, seat, t.playerDelta);
    PayAdds(st.players, seat, t.playerDelta);
    assert t.potDelta == -t.playerDelta;
    var paid := Pay(st.players, seat, t.playerDelta);
    assert forall i :: 0 <= i < |paid| ==>
      paid[i].seat == st.players[i].seat &&
      (paid[i].seat == seat ==> paid[i].stakeAtRisk == st.players[i].stakeAtRisk + t.playerDelta);
  }

  /** What the preview shows, by the ranks of the three cards; negative amounts are shown as zero. */
  lemma PreviewByRanks(impl: Impl, st: RoundState, rs: RuleSet, r1: int, r2: int, r3: int)
    requires ComputeSettlement(impl, st, rs).Ok? && Ranks(st.visibleCards, r1, r2, r3)
    ensures var shown := ComputeSettlement(impl, st, rs).value;
            var gain := GainByRanks(r1, r2, r3, st.potValue, rs.settlementRules);
            shown.stateHash == st.stateHash && shown.bet == st.potValue && st.actingSeat == Some(shown.seat) &&
            shown.amount >= 0 && (shown.amount == gain || shown.amount == -gain) &&
            shown.pot >= 0 && shown.pot >= st.potValue - gain && (shown.pot == 0 || shown.pot == st.potValue - gain) &&
            |shown.balances| == |st.players| &&
            forall i :: 0 <= i < |st.players| ==>
              var left := st.players[i].stakeAtRisk + gain;
              shown.balances[i] ==
                if st.players[i].seat != shown.seat then st.players[i].stakeAtRisk else if left < 0 then 0 else left
  {
    TransferByRanks(st.visibleCards, r1, r2, r3, st.potValue, rs.settlementRules);
  }

  /** Where there is no preview: another class, cards or actor missing, or in TypeScript an unsafe amount. */
  lemma PreviewRefuses(impl: Impl, st: RoundState, rs: RuleSet)
    ensures ComputeSettlement(impl, st, rs) == Err(InvalidActionForState) <==> st.stateClass != S10SettledRound
    ensures ComputeSettlement(impl, st, rs) == Err(InvalidStateTransition) <==>
              st.stateClass == S10SettledRound && (|st.visibleCards| != 3 || st.actingSeat.None?)
    ensures ComputeSettlement(impl, st, rs).Err? ==>
              ComputeSettlement(impl, st, rs).error in {InvalidActionForState, InvalidStateTransition, Thrown} &&
              (ComputeSettlement(impl, st, rs).error == Thrown ==> impl.TypeScript?)
  {
  }
}
