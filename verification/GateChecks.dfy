/** What the cryptographic gate lets through, down to the hashed bytes. */
module GateChecks {
  import opened Wrappers
  import opened Bytes
  import opened Protocol
  import opened Sequences
  import opened CryptoCards
  import opened Engine
  import opened Sorting
  import opened Gate
  import opened GateInvariant
  import opened Effects
  import opened Layouts

  /** A commitment is 32 bytes, spelt so that the gate reads it. */
  lemma CommitGate(impl: Impl, h: Hash, st: RoundState, a: SignedAction, rs: RuleSet)
    requires a.body.EntropyCommit?
    ensures var read := if impl.TypeScript? then a.body.spelling == LowerCase else a.body.spelling != Malformed;
            VerifyCrypto(impl, h, st, a, rs) ==
            if read && |a.body.commitmentHash| == 32 then None else Some(InvalidSignature)
  {
  }

  /** The bytes an entropy is committed by: type 5, the entropy, the key without its parity byte, the game. */
  function CommittedBytes(entropy: bytes, key: bytes, gameId: bytes): bytes
    requires |key| >= 32
  {
    [5, 0] + (entropy + (key[|key| - 32..] + gameId))
  }

  /** A reveal passes exactly when hashing it with the revealer's key and the game gives the stored commitment. */
  lemma RevealGate(impl: Impl, h: Hash, st: RoundState, a: SignedAction, rs: RuleSet, i: nat)
    requires a.body.EntropyReveal? && Distinct(SeatsOf(st.players)) && i < |st.players|
    requires a.seat == Some(st.players[i].seat)
    requires st.players[i].commitmentHash != Some([])
    ensures var p, e := st.players[i], a.body.entropy;
            VerifyCrypto(impl, h, st, a, rs).None? <==>
              (if impl.TypeScript? then a.body.spelling == LowerCase else a.body.spelling != Malformed) &&
              p.commitmentHash.Some? && |e| == 32 && |p.pubkey| >= 32 && |st.gameId| == 32 &&
              h(CommittedBytes(e, p.pubkey, st.gameId)) == p.commitmentHash.value
    ensures var p, refused := st.players[i], VerifyCrypto(impl, h, st, a, rs);
            refused.Some? ==>
              (refused.value == InvalidStateTransition <==> p.commitmentHash.None?) &&
              refused.value in {InvalidStateTransition, InvalidRevealProof, SerialisationError} &&
              (refused.value == SerialisationError ==> |p.pubkey| < 32 || |st.gameId| != 32)
  {
    var p := st.players[i];
    SeatedAt(st.players, i);
    if |p.pubkey| >= 32 {
      EntropyIsHashed(h, a.body.entropy, Tail32(p.pubkey), st.gameId);
    }
  }

  lemma RevealWithoutSeat(impl: Impl, h: Hash, st: RoundState, a: SignedAction, rs: RuleSet)
    requires a.body.EntropyReveal?
    ensures a.seat.None? ==> VerifyCrypto(impl, h, st, a, rs) == Some(SeatOutOfRange)
    ensures a.seat.Some? && Free(st.players, a.seat.value) ==>
              VerifyCrypto(impl, h, st, a, rs)
                == Some(if impl.TypeScript? then PlayerNotSeated else InvalidStateTransition)
  {
    if a.seat.Some? {
      TakenSeat(st.players, a.seat.value);
    }
  }

  /** The gate looks at commitments, reveals and shown cards only. */
  lemma NothingElseChecked(impl: Impl, h: Hash, st: RoundState, a: SignedAction, rs: RuleSet)
    requires !a.body.EntropyCommit? && !a.body.EntropyReveal? && !a.body.CardReveal?
    ensures VerifyCrypto(impl, h, st, a, rs).None?
  {
  }

  /** No card is shown before the entropies are combined. */
  lemma ShowGate(impl: Impl, h: Hash, st: RoundState, a: SignedAction, rs: RuleSet)
    requires a.body.CardReveal? && st.combinedEntropy.None?
    ensures VerifyCrypto(impl, h, st, a, rs) == Some(InvalidStateTransition)
  {
  }

  lemma DeckHasItsSize(h: Hash, combined: bytes, deckSize: nat, version: nat)
    requires DeckOf(h, combined, deckSize, version).Some?
    ensures |DeckOf(h, combined, deckSize, version).value.rows| == deckSize
  {
  }

  /** Why a shown card is refused once the deck is fixed. */
  lemma ShowRefusals(impl: Impl, h: Hash, st: RoundState, a: SignedAction, rs: RuleSet)
    requires a.body.CardReveal? && st.combinedEntropy.Some? && |st.combinedEntropy.value| == 32
    ensures var deck := DeckOf(h, st.combinedEntropy.value, rs.deckFormat, rs.shuffleVersion);
            var refused := VerifyCrypto(impl, h, st, a, rs);
            (deck.None? ==> refused == Some(if impl.TypeScript? then Thrown else InvalidStateTransition)) &&
            (deck.Some? && !(0 <= a.body.proof.position < rs.deckFormat) ==> refused == Some(InvalidRevealProof)) &&
            (deck.Some? && refused.Some? ==>
              refused.value == InvalidRevealProof ||
              (refused.value == SerialisationError && impl.GoRelay?) || (refused.value == Thrown && impl.TypeScript?))
  {
    assert VerifyCrypto(impl, h, st, a, rs) == CheckCardReveal(impl, h, st, a.body.proof, a.body.spelling, rs);
    if DeckOf(h, st.combinedEntropy.value, rs.deckFormat, rs.shuffleVersion).Some? {
      DeckHasItsSize(h, st.combinedEntropy.value, rs.deckFormat, rs.shuffleVersion);
    }
  }

  /** The last reveal fixes the deck, or is refused because no deck of that format and version exists. */
  lemma StampOrRefuse(impl: Impl, h: Hash, st: RoundState, rs: RuleSet)
    requires AllBound(h, st) && AllRevealed(st.players) && st.players != []
    ensures var deck := DeckOf(h, Seed(h, st.players), rs.deckFormat, rs.shuffleVersion);
            Materialise(impl, h, st, rs) ==
            if deck.None? then Err(if impl.TypeScript? then Thrown else InvalidStateTransition)
            else Ok(st.(combinedEntropy := Some(Seed(h, st.players)), deckCommitmentHash := Some(deck.value.hash)))
  {
    EverySharePresent(h, st);
    EntropiesFromShares(st.players);
    PresentMaterialises(impl, h, st, rs);
    SortKeepsElements(st.players);
  }

  /** A passed action takes the engine's step; the last reveal adds the stamp and changes nothing else. */
  lemma GateAddsTheStamp(impl: Impl, h: Hash, st: RoundState, a: SignedAction, rs: RuleSet, height: int)
    requires VerifyCrypto(impl, h, st, a, rs).None? && Apply(impl, st, a, rs, height).Ok?
    ensures var st1 := Apply(impl, st, a, rs, height).value;
            st1.stateClass != S5DeckCommitted || st.stateClass != S4EntropyReveal ==>
              GateStep(impl, h, st, a, rs, height) == Ok(st1)
    ensures GateStep(impl, h, st, a, rs, height).Ok? ==>
              var st1, st2 := Apply(impl, st, a, rs, height).value, GateStep(impl, h, st, a, rs, height).value;
              st2 == st1.(combinedEntropy := st2.combinedEntropy, deckCommitmentHash := st2.deckCommitmentHash)
  {
    if Materialise(impl, h, Apply(impl, st, a, rs, height).value, rs).Ok? {
      NoneBad(Sort(PlayerLE, Apply(impl, st, a, rs, height).value.players));
    }
  }
}
