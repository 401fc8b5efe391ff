/** Safety of gated runs: bound reveals, a deck fixed by the shares alone, commitments that never change. */
module GateInvariant {
  import opened Wrappers
  import opened Bytes
  import opened Protocol
  import opened Sorting
  import opened Engine
  import opened Replay
  import opened Invariants
  import opened Agreement
  import opened CryptoCards
  import opened Gate

  /** A commitment is 32 bytes and is opened, once revealed, by the stored entropy. */
  ghost predicate PlayerBound(h: Hash, gameId: bytes, p: PlayerState) {
    (p.entropyCommitted <==> p.commitmentHash.Some?) &&
    (p.entropyRevealed <==> p.entropyValue.Some?) &&
    (p.commitmentHash.Some? ==> |p.commitmentHash.value| == 32) &&
    (p.entropyValue.Some? ==>
      p.commitmentHash.Some? && |p.entropyValue.value| == 32 && |p.pubkey| >= 32 && |gameId| == 32 &&
      CommitEntropy(h, p.entropyValue.value, Tail32(p.pubkey), gameId) == p.commitmentHash.value)
  }

  ghost predicate AllBound(h: Hash, st: RoundState) {
    forall i :: 0 <= i < |st.players| ==> PlayerBound(h, st.gameId, st.players[i])
  }

  /** The seed that the shares in seat order determine. */
  function Seed(h: Hash, players: seq<PlayerState>): Digest {
    CombineEntropy(h, Mapped(ValueOf, Sort(ShareLE, Shares(players))))
  }

  ghost predicate Unstamped(st: RoundState) {
    st.combinedEntropy.None? && st.deckCommitmentHash.None?
  }

  /** Entropy and deck hash are the ones the shares determine. */
  ghost predicate Stamped(h: Hash, rs: RuleSet, st: RoundState) {
    var deck := DeckOf(h, Seed(h, st.players), rs.deckFormat, rs.shuffleVersion);
    deck.Some? && st.combinedEntropy == Some(Seed(h, st.players)) && st.deckCommitmentHash == Some(deck.value.hash)
  }

  predicate BeforeDeck(cls: StateClass) {
    cls in {S1SeatOpen, S3EntropyCommit, S4EntropyReveal}
  }

  ghost predicate GateInv(h: Hash, rs: RuleSet, st: RoundState) {
    WellFormed(rs, st) && AllBound(h, st) &&
    if BeforeDeck(st.stateClass) then Unstamped(st)
    else if st.stateClass == Recovered then Unstamped(st) || Stamped(h, rs, st)
    else Stamped(h, rs, st)
  }

  // ----- one step -----

  lemma EntropyBinds(impl: Impl, h: Hash, st: RoundState, a: SignedAction, rs: RuleSet, height: int)
    requires a.body.EntropyCommit? || a.body.EntropyReveal?
    requires AllBound(h, st) && VerifyCrypto(impl, h, st, a, rs).None? && Apply(impl, st, a, rs, height).Ok?
    ensures AllBound(h, Apply(impl, st, a, rs, height).value)
  {
  }

  lemma SeatingBinds(impl: Impl, h: Hash, st: RoundState, a: SignedAction, rs: RuleSet, height: int)
    requires a.body.Join? || a.body == Fold || a.body == Settle
    requires AllBound(h, st) && Apply(impl, st, a, rs, height).Ok?
    ensures AllBound(h, Apply(impl, st, a, rs, height).value)
  {
  }

  lemma StepBinds(impl: Impl, h: Hash, st: RoundState, a: SignedAction, rs: RuleSet, height: int)
    requires AllBound(h, st) && VerifyCrypto(impl, h, st, a, rs).None? && Apply(impl, st, a, rs, height).Ok?
    ensures AllBound(h, Apply(impl, st, a, rs, height).value)
  {
    if a.body.EntropyCommit? || a.body.EntropyReveal? {
      EntropyBinds(impl, h, st, a, rs, height);
    } else if TouchesPlayers(a.body) {
      SeatingBinds(impl, h, st, a, rs, height);
    } else {
      OthersKeepPlayers(impl, st, a, rs, height);
    }
  }

  lemma StepKeepsShares(impl: Impl, st: RoundState, a: SignedAction, rs: RuleSet, height: int)
    requires !a.body.Join? && !a.body.EntropyReveal? && Apply(impl, st, a, rs, height).Ok?
    ensures Shares(Apply(impl, st, a, rs, height).value.players) == Shares(st.players)
  {
    if TouchesPlayers(a.body) {
      UpdateKeepsShares(impl, st, a, rs, height);
    } else {
      OthersKeepPlayers(impl, st, a, rs, height);
    }
  }

  lemma UpdateKeepsShares(impl: Impl, st: RoundState, a: SignedAction, rs: RuleSet, height: int)
    requires a.body.EntropyCommit? || a.body == Fold || a.body == Settle
    requires Apply(impl, st, a, rs, height).Ok?
    ensures Shares(Apply(impl, st, a, rs, height).value.players) == Shares(st.players)
  {
    var st' := Apply(impl, st, a, rs, height).value;
    if a.body == Settle {
      var delta := ValueTransfer(Classify(st.visibleCards), st.potValue, rs.settlementRules).playerDelta;
      PayKeepsShares(st.players, st.actingSeat.value, delta);
    } else {
      var i := FindSeat(st.players, a.seat.value);
      ReplaceKeepsShares(st.players, i, st'.players[i]);
    }
  }

  lemma PayKeepsShares(players: seq<PlayerState>, seat: int, delta: int)
    ensures Shares(Pay(players, seat, delta)) == Shares(players)
  {
  }

  lemma ReplaceKeepsShares(players: seq<PlayerState>, i: nat, p: PlayerState)
    requires i < |players| && ShareOf(p) == ShareOf(players[i])
    ensures Shares(players[i := p]) == Shares(players)
  {
  }

  lemma ClassMoves(impl: Impl, st: RoundState, a: SignedAction, rs: RuleSet, height: int)
    requires Apply(impl, st, a, rs, height).Ok?
    ensures var cls, cls' := st.stateClass, Apply(impl, st, a, rs, height).value.stateClass;
            (a.body.Join? || a.body.EntropyReveal? ==> BeforeDeck(cls)) &&
            (!BeforeDeck(cls) ==> !BeforeDeck(cls')) && (cls == Recovered ==> cls' == Recovered) &&
            (BeforeDeck(cls) && !BeforeDeck(cls') ==>
              cls' == Recovered || (cls == S4EntropyReveal && cls' == S5DeckCommitted))
  {
    if a.body == Fold || a.body == Settle || a.body == RotateTurn || a.body == Recovery {
      LateMoves(impl, st, a, rs, height);
    }
  }

  lemma LateMoves(impl: Impl, st: RoundState, a: SignedAction, rs: RuleSet, height: int)
    requires a.body == Fold || a.body == Settle || a.body == RotateTurn || a.body == Recovery
    requires Apply(impl, st, a, rs, height).Ok?
    ensures !BeforeDeck(Apply(impl, st, a, rs, height).value.stateClass)
    ensures a.body == Recovery ==> Apply(impl, st, a, rs, height).value.stateClass == Recovered
    ensures a.body != Recovery ==> !BeforeDeck(st.stateClass) && st.stateClass != Recovered
  {
  }

  /** Where every share is present, the gate stamps what the shares determine. */
  lemma MaterialiseStamps(impl: Impl, h: Hash, st: RoundState, rs: RuleSet)
    requires AllBound(h, st) && AllRevealed(st.players) && Materialise(impl, h, st, rs).Ok?
    ensures var st' := Materialise(impl, h, st, rs).value;
            Stamped(h, rs, st') &&
            st' == st.(combinedEntropy := st'.combinedEntropy, deckCommitmentHash := st'.deckCommitmentHash)
  {
    EverySharePresent(h, st);
    EntropiesFromShares(st.players);
    PresentMaterialises(impl, h, st, rs);
    assert CombineEntropy(h, Entropies(Sort(PlayerLE, st.players))) == Seed(h, st.players);
  }

  lemma EverySharePresent(h: Hash, st: RoundState)
    requires AllBound(h, st) && AllRevealed(st.players)
    ensures forall i :: 0 <= i < |Sort(PlayerLE, st.players)| ==>
              Sort(PlayerLE, st.players)[i].entropyValue.Some? &&
                |Sort(PlayerLE, st.players)[i].entropyValue.value| == 32
  {
    SortKeepsElements(st.players);
    var seated := Sort(PlayerLE, st.players);
    forall i | 0 <= i < |seated|
      ensures seated[i].entropyValue.Some? && |seated[i].entropyValue.value| == 32
    {
      assert seated[i] in st.players;
      var j :| 0 <= j < |st.players| && st.players[j] == seated[i];
      assert PlayerBound(h, st.gameId, st.players[j]);
    }
  }

  lemma SortKeepsElements(players: seq<PlayerState>)
    ensures var s := Sort(PlayerLE, players);
            |s| == |players| && forall p :: p in s ==> p in players
  {
    SortIsSorted(PlayerLE, players);
    var s := Sort(PlayerLE, players);
    forall p | p in s
      ensures p in players
    {
      assert p in multiset(s);
    }
  }

  /** Every step through the gate keeps the invariant. */
  lemma GateStepKeeps(impl: Impl, h: Hash, st: RoundState, a: SignedAction, rs: RuleSet, height: int)
    requires GateInv(h, rs, st) && GateStep(impl, h, st, a, rs, height).Ok?
    ensures GateInv(h, rs, GateStep(impl, h, st, a, rs, height).value)
  {
    var st1 := Apply(impl, st, a, rs, height).value;
    StepKeeps(impl, st, a, rs, height);
    StepBinds(impl, h, st, a, rs, height);
    StepCarries(impl, st, a, rs, height);
    ClassMoves(impl, st, a, rs, height);
    if st.stateClass == S4EntropyReveal && st1.stateClass == S5DeckCommitted {
      MaterialiseStamps(impl, h, st1, rs);
      Restamped(h, rs, st1, GateStep(impl, h, st, a, rs, height).value);
    } else if !BeforeDeck(st.stateClass) {
      StepKeepsShares(impl, st, a, rs, height);
    }
  }

  /** The two stamped fields are read by nothing else in the invariant. */
  lemma Restamped(h: Hash, rs: RuleSet, st: RoundState, st': RoundState)
    requires WellFormed(rs, st) && AllBound(h, st)
    requires st' == st.(combinedEntropy := st'.combinedEntropy, deckCommitmentHash := st'.deckCommitmentHash)
    ensures WellFormed(rs, st') && AllBound(h, st')
  {
  }

  lemma {:induction false} GateRunKeeps(impl: Impl, h: Hash, st: RoundState, rs: RuleSet, log: seq<Entry>)
    requires GateInv(h, rs, st) && GateRun(impl, h, st, rs, log).Ok?
    ensures GateInv(h, rs, GateRun(impl, h, st, rs, log).value)
    decreases |log|
  {
    if log != [] {
      GateStepKeeps(impl, h, st, log[0].action, rs, log[0].height);
      GateRunKeeps(impl, h, GateStep(impl, h, st, log[0].action, rs, log[0].height).value, rs, log[1..]);
    }
  }

  /**
   * In every state a gated run reaches: reveals open their commitments, the commit window has an open
   * seat, the reveal window has all commitments and a missing reveal, and the deck is absent before S5
   * and from S5 on is the one the shares determine.
   */
  lemma GatedStatesAreSafe(
    impl: Impl, h: Hash, gameId: bytes, ruleSetHash: bytes, deadline: int, rs: RuleSet, log: seq<Entry>)
    requires GateRun(impl, h, InitialState(gameId, ruleSetHash, deadline), rs, log).Ok?
    ensures var st := GateRun(impl, h, InitialState(gameId, ruleSetHash, deadline), rs, log).value;
            AllBound(h, st) &&
            (st.stateClass == S3EntropyCommit && st.players != [] ==> !AllCommitted(st.players)) &&
            (st.stateClass == S4EntropyReveal ==> AllCommitted(st.players) && !AllRevealed(st.players)) &&
            (BeforeDeck(st.stateClass) ==> Unstamped(st)) &&
            (st.stateClass != Recovered && !BeforeDeck(st.stateClass) ==> Stamped(h, rs, st) && AllRevealed(st.players))
  {
    GateRunKeeps(impl, h, InitialState(gameId, ruleSetHash, deadline), rs, log);
    InvariantMeans(h, rs, GateRun(impl, h, InitialState(gameId, ruleSetHash, deadline), rs, log).value);
  }

  lemma InvariantMeans(h: Hash, rs: RuleSet, st: RoundState)
    requires GateInv(h, rs, st)
    ensures AllBound(h, st)
    ensures st.stateClass == S3EntropyCommit && st.players != [] ==> !AllCommitted(st.players)
    ensures st.stateClass == S4EntropyReveal ==> AllCommitted(st.players) && !AllRevealed(st.players)
    ensures BeforeDeck(st.stateClass) ==> Unstamped(st)
    ensures st.stateClass != Recovered && !BeforeDeck(st.stateClass) ==> Stamped(h, rs, st) && AllRevealed(st.players)
  {
  }

  /**
   * Two gated runs, in either engine and with joins, commits and reveals in any order, that end with the
   * same seat-to-entropy shares have the same combined entropy and the same deck.
   */
  lemma DeckIgnoresOrder(
    impl1: Impl, impl2: Impl, h: Hash, init1: RoundState, init2: RoundState, rs: RuleSet,
    log1: seq<Entry>, log2: seq<Entry>)
    requires GateInv(h, rs, init1) && GateInv(h, rs, init2)
    requires GateRun(impl1, h, init1, rs, log1).Ok? && GateRun(impl2, h, init2, rs, log2).Ok?
    requires var s1, s2 := GateRun(impl1, h, init1, rs, log1).value, GateRun(impl2, h, init2, rs, log2).value;
             s1.combinedEntropy.Some? && s2.combinedEntropy.Some? &&
             forall x :: x in Shares(s1.players) <==> x in Shares(s2.players)
    ensures var s1, s2 := GateRun(impl1, h, init1, rs, log1).value, GateRun(impl2, h, init2, rs, log2).value;
            s1.combinedEntropy == s2.combinedEntropy && s1.deckCommitmentHash == s2.deckCommitmentHash
  {
    GateRunKeeps(impl1, h, init1, rs, log1);
    GateRunKeeps(impl2, h, init2, rs, log2);
    SharesFixOrder(
      GateRun(impl1, h, init1, rs, log1).value.players, GateRun(impl2, h, init2, rs, log2).value.players);
  }

  // ----- what never changes -----

  /** Seats stay; keys, stored commitments and stored entropies are never replaced. */
  ghost predicate Remembers(st: RoundState, st': RoundState) {
    |st.players| <= |st'.players| &&
    forall i :: 0 <= i < |st.players| ==>
      var p, p' := st.players[i], st'.players[i];
      p'.seat == p.seat && p'.pubkey == p.pubkey &&
      (p.entropyCommitted ==> p'.entropyCommitted && p'.commitmentHash == p.commitmentHash) &&
      (p.entropyRevealed ==> p'.entropyRevealed && p'.entropyValue == p.entropyValue)
  }

  lemma SeatingRemembers(impl: Impl, st: RoundState, a: SignedAction, rs: RuleSet, height: int)
    requires (a.body.Join? || a.body.EntropyCommit? || a.body.EntropyReveal?) && Apply(impl, st, a, rs, height).Ok?
    ensures Remembers(st, Apply(impl, st, a, rs, height).value)
  {
  }

  lemma PlayersRemember(impl: Impl, st: RoundState, a: SignedAction, rs: RuleSet, height: int)
    requires TouchesPlayers(a.body) && Apply(impl, st, a, rs, height).Ok?
    ensures Remembers(st, Apply(impl, st, a, rs, height).value)
  {
    if a.body != Fold && a.body != Settle {
      SeatingRemembers(impl, st, a, rs, height);
    }
  }

  lemma StepRemembers(impl: Impl, st: RoundState, a: SignedAction, rs: RuleSet, height: int)
    requires Apply(impl, st, a, rs, height).Ok?
    ensures Remembers(st, Apply(impl, st, a, rs, height).value)
  {
    if TouchesPlayers(a.body) {
      PlayersRemember(impl, st, a, rs, height);
    } else {
      OthersKeepPlayers(impl, st, a, rs, height);
    }
  }

  lemma GateStepRemembers(impl: Impl, h: Hash, st: RoundState, a: SignedAction, rs: RuleSet, height: int)
    requires GateStep(impl, h, st, a, rs, height).Ok?
    ensures Remembers(st, GateStep(impl, h, st, a, rs, height).value)
  {
    StepRemembers(impl, st, a, rs, height);
    var st1 := Apply(impl, st, a, rs, height).value;
    if Materialise(impl, h, st1, rs).Ok? {
      MaterialiseKeepsPlayers(impl, h, st1, rs);
    }
  }

  lemma MaterialiseKeepsPlayers(impl: Impl, h: Hash, st: RoundState, rs: RuleSet)
    requires Materialise(impl, h, st, rs).Ok?
    ensures Materialise(impl, h, st, rs).value.players == st.players
  {
    NoneBad(Sort(PlayerLE, st.players));
  }

  lemma {:induction false} NoneBad(seated: seq<PlayerState>)
    ensures FirstBad(seated).Err?
  {
    if seated != [] {
      NoneBad(seated[1..]);
    }
  }

  /** Over any continuation of a gated run, stored commitments and entropies stay what they were. */
  lemma {:induction false} GateRunRemembers(impl: Impl, h: Hash, st: RoundState, rs: RuleSet, log: seq<Entry>)
    requires GateRun(impl, h, st, rs, log).Ok?
    ensures Remembers(st, GateRun(impl, h, st, rs, log).value)
    decreases |log|
  {
    if log != [] {
      var st1 := GateStep(impl, h, st, log[0].action, rs, log[0].height).value;
      GateStepRemembers(impl, h, st, log[0].action, rs, log[0].height);
      GateRunRemembers(impl, h, st1, rs, log[1..]);
      RemembersTransitive(st, st1, GateRun(impl, h, st1, rs, log[1..]).value);
    }
  }

  lemma RemembersTransitive(s0: RoundState, s1: RoundState, s2: RoundState)
    requires Remembers(s0, s1) && Remembers(s1, s2)
    ensures Remembers(s0, s2)
  {
  }
}
