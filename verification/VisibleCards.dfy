/** What a gated table can show: every visible card is the shuffled deck's card at the position it was revealed at. */
module VisibleCards {
  import opened Wrappers
  import opened Bytes
  import opened Protocol
  import opened Sorting
  import opened Engine
  import opened Replay
  import opened Shuffle
  import opened CryptoCards
  import opened Gate
  import opened Agreement
  import opened GateInvariant

  /** The reveal's own hash input, and the one of the position it names, do not collide. */
  ghost predicate NoCollision(h: Hash, entropy: bytes, rs: RuleSet, r: RevealProof)
    requires DeckOf(h, entropy, rs.deckFormat, rs.shuffleVersion).Some?
  {
    var d := DeckOf(h, entropy, rs.deckFormat, rs.shuffleVersion).value;
    0 <= r.position < rs.deckFormat && r.revealedCard.ordinal >= 0 ==>
      CollisionFreeOn(h, {HashedBytes(CardInput(r.revealedCard.ordinal, r.cardNonce, r.deckNonce)),
                          HashedBytes(RowInput(h, entropy, d, r.position))})
  }

  /** The reveal names a position, that position's card, and the derived nonces. */
  ghost predicate Opens(h: Hash, entropy: bytes, rs: RuleSet, r: RevealProof) {
    var d := DeckOf(h, entropy, rs.deckFormat, rs.shuffleVersion);
    d.Some? && 0 <= r.position < rs.deckFormat && r.revealedCard.ordinal == d.value.shuffled[r.position] &&
    r.cardNonce == CardNonce(h, entropy, r.position) && r.deckNonce == DeckNonce(h, entropy)
  }

  /** The gate lets a card reveal through exactly when it opens the deck, spelt so that the gate reads it. */
  lemma GateOpensOneCard(impl: Impl, h: Hash, st: RoundState, r: RevealProof, spelling: Spelling, rs: RuleSet)
    requires st.combinedEntropy.Some? && |st.combinedEntropy.value| == 32
    requires DeckOf(h, st.combinedEntropy.value, rs.deckFormat, rs.shuffleVersion).Some?
    requires NoCollision(h, st.combinedEntropy.value, rs, r)
    ensures CheckCardReveal(impl, h, st, r, spelling, rs).None? <==>
              Opens(h, st.combinedEntropy.value, rs, r) && (impl.GoRelay? ==> spelling != Malformed)
  {
    var entropy := st.combinedEntropy.value;
    if 0 <= r.position < rs.deckFormat {
      RevealOpensOneCard(h, entropy, rs.deckFormat, rs.shuffleVersion, r.position, r.revealedCard.ordinal,
                         r.cardNonce, r.deckNonce);
    }
  }

  // ----- over a whole run -----

  /** The card was revealed by this entry, at a position where the deck of this entropy has it. */
  ghost predicate ShownBy(h: Hash, entropy: bytes, rs: RuleSet, e: Entry, card: RevealedCard) {
    var deck := ShuffledDeck(h, entropy, rs.deckFormat);
    e.action.body.CardReveal? && e.action.body.proof.revealedCard == card && deck.Some? &&
    0 <= e.action.body.proof.position < rs.deckFormat && card.ordinal == deck.value[e.action.body.proof.position]
  }

  ghost predicate AllShown(h: Hash, rs: RuleSet, st: RoundState, log: seq<Entry>) {
    forall c :: c in st.visibleCards ==>
      st.combinedEntropy.Some? && exists e :: e in log && ShownBy(h, st.combinedEntropy.value, rs, e, c)
  }

  /** No reveal of the log collides with a position of the deck of this entropy. */
  ghost predicate CollisionFreeLog(h: Hash, entropy: bytes, rs: RuleSet, log: seq<Entry>) {
    DeckOf(h, entropy, rs.deckFormat, rs.shuffleVersion).Some? ==>
      forall e :: e in log && e.action.body.CardReveal? ==> NoCollision(h, entropy, rs, e.action.body.proof)
  }

  /** A handler keeps the visible cards, clears them, or adds the revealed one. */
  lemma StepVisible(impl: Impl, st: RoundState, a: SignedAction, rs: RuleSet, height: int)
    requires Apply(impl, st, a, rs, height).Ok?
    ensures var after := Apply(impl, st, a, rs, height).value.visibleCards;
            if a.body.CardReveal? then after == st.visibleCards + [a.body.proof.revealedCard]
            else after == st.visibleCards || after == []
    ensures a.body.CardReveal? ==> Apply(impl, st, a, rs, height).value.stateClass != S5DeckCommitted
  {
  }

  /** The stamped entropy stays; a reveal happens only with it in place. */
  lemma GateStepVisible(impl: Impl, h: Hash, st: RoundState, a: SignedAction, rs: RuleSet, height: int)
    requires GateInv(h, rs, st) && GateStep(impl, h, st, a, rs, height).Ok?
    ensures var st1 := GateStep(impl, h, st, a, rs, height).value;
            (st.combinedEntropy.Some? ==> st1.combinedEntropy == st.combinedEntropy) &&
            if a.body.CardReveal? then
              st1.visibleCards == st.visibleCards + [a.body.proof.revealedCard] && st.combinedEntropy.Some? &&
              CheckCardReveal(impl, h, st, a.body.proof, a.body.spelling, rs).None?
            else st1.visibleCards == st.visibleCards || st1.visibleCards == []
  {
    StepVisible(impl, st, a, rs, height);
    StepCarries(impl, st, a, rs, height);
    if st.stateClass == S4EntropyReveal && Apply(impl, st, a, rs, height).value.stateClass == S5DeckCommitted {
      MaterialiseKeepsCards(impl, h, Apply(impl, st, a, rs, height).value, rs);
    }
  }

  lemma MaterialiseKeepsCards(impl: Impl, h: Hash, st: RoundState, rs: RuleSet)
    requires Materialise(impl, h, st, rs).Ok?
    ensures Materialise(impl, h, st, rs).value.visibleCards == st.visibleCards
  {
    NoneBad(Sort(PlayerLE, st.players));
  }

  /** Stamped states hold a deck. */
  lemma StampedDeck(h: Hash, rs: RuleSet, st: RoundState)
    requires GateInv(h, rs, st) && st.combinedEntropy.Some?
    ensures |st.combinedEntropy.value| == 32 && st.combinedEntropy == Some(Seed(h, st.players))
    ensures DeckOf(h, st.combinedEntropy.value, rs.deckFormat, rs.shuffleVersion).Some?
  {
  }

  lemma StepShows(impl: Impl, h: Hash, st: RoundState, e: Entry, rs: RuleSet, log: seq<Entry>)
    requires GateInv(h, rs, st) && GateStep(impl, h, st, e.action, rs, e.height).Ok? && AllShown(h, rs, st, log)
    requires st.combinedEntropy.Some? ==> CollisionFreeLog(h, st.combinedEntropy.value, rs, [e])
    ensures AllShown(h, rs, GateStep(impl, h, st, e.action, rs, e.height).value, log + [e])
  {
    var a, st1 := e.action, GateStep(impl, h, st, e.action, rs, e.height).value;
    GateStepVisible(impl, h, st, a, rs, e.height);
    forall c | c in st1.visibleCards
      ensures st1.combinedEntropy.Some? &&
              exists x :: x in log + [e] && ShownBy(h, st1.combinedEntropy.value, rs, x, c)
    {
      if c in st.visibleCards {
        var x :| x in log && ShownBy(h, st.combinedEntropy.value, rs, x, c);
        assert x in log + [e];
      } else {
        StampedDeck(h, rs, st);
        assert e in [e];
        GateOpensOneCard(impl, h, st, a.body.proof, a.body.spelling, rs);
        assert e in log + [e];
      }
    }
  }

  /** The last step of a gated run. */
  lemma LastStep(impl: Impl, h: Hash, st: RoundState, rs: RuleSet, log: seq<Entry>)
    returns (before: seq<Entry>, e: Entry, st1: RoundState)
    requires GateRun(impl, h, st, rs, log).Ok? && log != []
    ensures log == before + [e] && GateRun(impl, h, st, rs, before) == Ok(st1)
    ensures GateStep(impl, h, st1, e.action, rs, e.height) == GateRun(impl, h, st, rs, log)
  {
    before, e := log[..|log| - 1], log[|log| - 1];
    GateRunLast(impl, h, st, rs, log);
    st1 := GateRun(impl, h, st, rs, before).value;
  }

  lemma EntropyStays(
    impl: Impl, h: Hash, st: RoundState, rs: RuleSet, before: seq<Entry>, e: Entry, st1: RoundState)
    requires GateInv(h, rs, st) && GateRun(impl, h, st, rs, before) == Ok(st1)
    requires GateStep(impl, h, st1, e.action, rs, e.height).Ok?
    ensures GateInv(h, rs, st1)
    ensures st1.combinedEntropy.Some? ==>
              GateStep(impl, h, st1, e.action, rs, e.height).value.combinedEntropy == st1.combinedEntropy
  {
    GateRunKeeps(impl, h, st, rs, before);
    GateStepVisible(impl, h, st1, e.action, rs, e.height);
  }

  lemma FewerReveals(h: Hash, entropy: bytes, rs: RuleSet, log: seq<Entry>, part: seq<Entry>)
    requires CollisionFreeLog(h, entropy, rs, log) && forall e :: e in part ==> e in log
    ensures CollisionFreeLog(h, entropy, rs, part)
  {
  }

  lemma {:induction false} RunShows(impl: Impl, h: Hash, st: RoundState, rs: RuleSet, log: seq<Entry>)
    requires GateInv(h, rs, st) && st.visibleCards == [] && GateRun(impl, h, st, rs, log).Ok?
    requires var st' := GateRun(impl, h, st, rs, log).value;
             st'.combinedEntropy.Some? ==> CollisionFreeLog(h, st'.combinedEntropy.value, rs, log)
    ensures AllShown(h, rs, GateRun(impl, h, st, rs, log).value, log)
    decreases |log|
  {
    if log != [] {
      var before, e, st1 := LastStep(impl, h, st, rs, log);
      EntropyStays(impl, h, st, rs, before, e, st1);
      if st1.combinedEntropy.Some? {
        FewerReveals(h, st1.combinedEntropy.value, rs, log, before);
        FewerReveals(h, st1.combinedEntropy.value, rs, log, [e]);
      }
      RunShows(impl, h, st, rs, before);
      StepShows(impl, h, st1, e, rs, before);
    }
  }

  /**
   * In every gated run each visible card stands at the position it was revealed at, in the deck shuffled
   * from the seed that the revealed entropies determine.
   */
  lemma VisibleCardsAreShuffled(
    impl: Impl, h: Hash, gameId: bytes, ruleSetHash: bytes, deadline: int, rs: RuleSet, log: seq<Entry>,
    card: RevealedCard)
    requires GateRun(impl, h, InitialState(gameId, ruleSetHash, deadline), rs, log).Ok?
    requires var st := GateRun(impl, h, InitialState(gameId, ruleSetHash, deadline), rs, log).value;
             card in st.visibleCards && CollisionFreeLog(h, Seed(h, st.players), rs, log)
    ensures var st := GateRun(impl, h, InitialState(gameId, ruleSetHash, deadline), rs, log).value;
            exists e :: e in log && ShownBy(h, Seed(h, st.players), rs, e, card)
  {
    var init := InitialState(gameId, ruleSetHash, deadline);
    var st := GateRun(impl, h, init, rs, log).value;
    GateRunKeeps(impl, h, init, rs, log);
    if st.combinedEntropy.Some? {
      StampedDeck(h, rs, st);
    }
    RunShows(impl, h, init, rs, log);
    StampedDeck(h, rs, st);
  }
}
