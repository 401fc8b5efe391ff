/** What the engine never reads, and where the TypeScript and Go engines agree. */
module Agreement {
  import opened Wrappers
  import opened Bytes
  import opened Protocol
  import opened Engine
  import opened Replay

  /** The state without the two fields that only the verification gate writes. */
  function Erase(st: RoundState): RoundState {
    st.(combinedEntropy := None, deckCommitmentHash := None)
  }

  function EraseResult(r: StepResult): StepResult {
    if r.Ok? then Ok(Erase(r.value)) else r
  }

  predicate Seating(body: ActionBody) {
    body.Join? || body == TableLock || body.EntropyCommit? || body.EntropyReveal?
  }

  predicate Closing(body: ActionBody) {
    body == Settle || body == RotateTurn || body == TableClose || body == Timeout || body == Recovery
  }

  lemma SeatingErases(impl: Impl, st: RoundState, a: SignedAction, rs: RuleSet, height: int)
    requires Seating(a.body)
    ensures Apply(impl, Erase(st), a, rs, height) == EraseResult(Apply(impl, st, a, rs, height))
  {
  }

  predicate Dealing(body: ActionBody) {
    body.CardReveal? || body.DealConcealed?
  }

  lemma DealingErases(impl: Impl, st: RoundState, a: SignedAction, rs: RuleSet, height: int)
    requires Dealing(a.body)
    ensures Apply(impl, Erase(st), a, rs, height) == EraseResult(Apply(impl, st, a, rs, height))
  {
  }

  lemma PlayErases(impl: Impl, st: RoundState, a: SignedAction, rs: RuleSet, height: int)
    requires a.body.Bet? || a.body == Pass || a.body == Fold
    ensures Apply(impl, Erase(st), a, rs, height) == EraseResult(Apply(impl, st, a, rs, height))
  {
  }

  lemma ClosingErases(impl: Impl, st: RoundState, a: SignedAction, rs: RuleSet, height: int)
    requires Closing(a.body)
    ensures Apply(impl, Erase(st), a, rs, height) == EraseResult(Apply(impl, st, a, rs, height))
  {
  }

  /** The engine never reads the two fields. */
  lemma StepErases(impl: Impl, st: RoundState, a: SignedAction, rs: RuleSet, height: int)
    ensures Apply(impl, Erase(st), a, rs, height) == EraseResult(Apply(impl, st, a, rs, height))
  {
    if Seating(a.body) {
      SeatingErases(impl, st, a, rs, height);
    } else if Closing(a.body) {
      ClosingErases(impl, st, a, rs, height);
    } else if Dealing(a.body) {
      DealingErases(impl, st, a, rs, height);
    } else {
      PlayErases(impl, st, a, rs, height);
    }
  }

  /** Nor does it write them. */
  lemma StepCarries(impl: Impl, st: RoundState, a: SignedAction, rs: RuleSet, height: int)
    requires Apply(impl, st, a, rs, height).Ok?
    ensures var st' := Apply(impl, st, a, rs, height).value;
            st'.combinedEntropy == st.combinedEntropy && st'.deckCommitmentHash == st.deckCommitmentHash &&
            st'.gameId == st.gameId
  {
    if TouchesPlayers(a.body) {
      UpdateCarries(impl, st, a, rs, height);
    }
  }

  lemma UpdateCarries(impl: Impl, st: RoundState, a: SignedAction, rs: RuleSet, height: int)
    requires TouchesPlayers(a.body) && Apply(impl, st, a, rs, height).Ok?
    ensures var st' := Apply(impl, st, a, rs, height).value;
            st'.combinedEntropy == st.combinedEntropy && st'.deckCommitmentHash == st.deckCommitmentHash &&
            st'.gameId == st.gameId
  {
  }

  /** The number ranges TypeScript insists on. */
  ghost predicate SafeState(st: RoundState) {
    0 <= st.potValue <= MAX_SAFE && 0 <= st.roundNumber <= MAX_SAFE &&
    forall i :: 0 <= i < |st.players| ==>
      0 <= st.players[i].seat <= MAX_SAFE && 0 <= st.players[i].stakeAtRisk <= MAX_SAFE
  }

  /** Neither engine can leave an empty concealed deck when the deck format is 52 or 54. */
  ghost predicate DeckShape(st: RoundState) {
    st.concealedDeck.Some? ==> |st.concealedDeck.value| > 0
  }

  lemma SettleAgrees(st: RoundState, rs: RuleSet)
    requires SafeState(st) && rs.stakeAmount <= MAX_SAFE
    ensures var go, ts := ApplySettle(GoRelay, st, rs), ApplySettle(TypeScript, st, rs);
            (ts.Ok? <==> go.Ok? && SafeState(go.value)) && (ts.Ok? ==> ts == go)
  {
    var go := ApplySettle(GoRelay, st, rs);
    if go.Ok? {
      var t := ValueTransfer(Classify(st.visibleCards), st.potValue, rs.settlementRules);
      assert go.value.players == Pay(st.players, st.actingSeat.value, t.playerDelta);
    }
  }

  /** Two results agree: TypeScript accepts what Go accepts, if the new state is in range. */
  ghost predicate Agree(go: StepResult, ts: StepResult) {
    (ts.Ok? <==> go.Ok? && SafeState(go.value)) && (ts.Ok? ==> ts == go) && (go.Ok? ==> DeckShape(go.value))
  }

  lemma JoinAgrees(st: RoundState, seat: Option<int>, pubkey: bytes, stake: int, rs: RuleSet)
    requires SafeState(st) && DeckShape(st) && 0 <= rs.stakeAmount <= MAX_SAFE
    ensures Agree(ApplyJoin(GoRelay, st, seat, pubkey, stake, rs), ApplyJoin(TypeScript, st, seat, pubkey, stake, rs))
  {
    var go := ApplyJoin(GoRelay, st, seat, pubkey, stake, rs);
    if go.Ok? {
      assert go.value.players[|st.players|] in go.value.players;
    }
  }

  /** Handlers that neither read the platform nor touch a number TypeScript bounds. */
  lemma SharedAgree(st: RoundState, a: SignedAction, rs: RuleSet, height: int)
    requires SafeState(st) && DeckShape(st) && rs.deckFormat > 0
    requires !a.body.Join? && !a.body.Bet? && a.body != Settle && a.body != RotateTurn
    ensures Apply(GoRelay, st, a, rs, height) == Apply(TypeScript, st, a, rs, height)
    ensures Apply(GoRelay, st, a, rs, height).Ok? ==>
              SafeState(Apply(GoRelay, st, a, rs, height).value) && DeckShape(Apply(GoRelay, st, a, rs, height).value)
  {
    if TouchesPlayers(a.body) {
      UpdateAgrees(st, a, rs, height);
    }
  }

  lemma UpdateAgrees(st: RoundState, a: SignedAction, rs: RuleSet, height: int)
    requires SafeState(st) && DeckShape(st) && (a.body.EntropyCommit? || a.body.EntropyReveal? || a.body == Fold)
    ensures Apply(GoRelay, st, a, rs, height) == Apply(TypeScript, st, a, rs, height)
    ensures Apply(GoRelay, st, a, rs, height).Ok? ==>
              SafeState(Apply(GoRelay, st, a, rs, height).value) && DeckShape(Apply(GoRelay, st, a, rs, height).value)
  {
  }

  /**
   * From a state in range, TypeScript accepts an action exactly when Go accepts it and the result is
   * still in range, and then both give the same state.
   */
  lemma EnginesAgree(st: RoundState, a: SignedAction, rs: RuleSet, height: int)
    requires SafeState(st) && DeckShape(st) && 0 <= rs.stakeAmount <= MAX_SAFE && rs.deckFormat > 0
    ensures Agree(Apply(GoRelay, st, a, rs, height), Apply(TypeScript, st, a, rs, height))
  {
    match a.body
    case Settle => SettleAgrees(st, rs);
    case Join(pubkey, stake) => JoinAgrees(st, a.seat, pubkey, stake, rs);
    case Bet(_) =>
    case RotateTurn =>
    case _ => SharedAgree(st, a, rs, height);
  }

  /** Whatever TypeScript replays, Go replays to the same state. */
  lemma {:induction false} RunsAgree(st: RoundState, rs: RuleSet, log: seq<Entry>)
    requires SafeState(st) && DeckShape(st) && 0 <= rs.stakeAmount <= MAX_SAFE && rs.deckFormat > 0
    requires Run(TypeScript, st, rs, log).Ok?
    ensures Run(GoRelay, st, rs, log) == Run(TypeScript, st, rs, log) && SafeState(Run(TypeScript, st, rs, log).value)
    decreases |log|
  {
    if log != [] {
      EnginesAgree(st, log[0].action, rs, log[0].height);
      RunsAgree(Apply(TypeScript, st, log[0].action, rs, log[0].height).value, rs, log[1..]);
    }
  }

  /** Every state Go passes through is in TypeScript's number range. */
  ghost predicate StaysSafe(st: RoundState, rs: RuleSet, log: seq<Entry>)
    decreases |log|
  {
    SafeState(st) &&
    (log != [] ==>
      var r := Apply(GoRelay, st, log[0].action, rs, log[0].height);
      r.Ok? ==> StaysSafe(r.value, rs, log[1..]))
  }

  lemma UnsafeEnds(st: RoundState, rs: RuleSet, log: seq<Entry>)
    requires !SafeState(st)
    ensures !StaysSafe(st, rs, log)
  {
  }

  /** A log that Go accepts replays in TypeScript, to the same state, exactly when every number stayed safe. */
  lemma {:induction false} GoRunsReplay(st: RoundState, rs: RuleSet, log: seq<Entry>)
    requires SafeState(st) && DeckShape(st) && 0 <= rs.stakeAmount <= MAX_SAFE && rs.deckFormat > 0
    requires Run(GoRelay, st, rs, log).Ok?
    ensures Run(TypeScript, st, rs, log) == Run(GoRelay, st, rs, log) <==> StaysSafe(st, rs, log)
    ensures Run(TypeScript, st, rs, log).Ok? <==> StaysSafe(st, rs, log)
    decreases |log|
  {
    if log != [] {
      EnginesAgree(st, log[0].action, rs, log[0].height);
      var st1 := Apply(GoRelay, st, log[0].action, rs, log[0].height).value;
      if SafeState(st1) {
        GoRunsReplay(st1, rs, log[1..]);
      } else {
        UnsafeEnds(st1, rs, log[1..]);
      }
    }
  }
}
