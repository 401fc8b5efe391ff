/** encodeRoundState as written: parts pushed in loops and concatenated, and where it throws. */
module StateWriter {
  import opened Wrappers
  import opened Bytes
  import opened Concatenation
  import opened Sorting
  import opened Canonical
  import opened Protocol
  import opened Engine
  import opened Replay
  import opened Agreement
  import opened StateEncoding

  // ----- where the encoder throws: a hash or key that is not 32 bytes of hex -----

  predicate HashOrNone(h: Option<bytes>) { h.Some? ==> Is32(h.value) }

  predicate WritablePlayer(p: PlayerState) {
    Is32(p.playerId) && Is32(Key32(p.pubkey)) && HashOrNone(p.commitmentHash) && HashOrNone(p.entropyValue)
  }

  predicate WritableCard(c: ConcealedCard) {
    Is32(c.commitment.commitment) && Is32(c.commitment.cardNonce) && Is32(Key32(c.holderPubkey))
  }

  predicate WritableDeck(deck: Option<seq<ConcealedCard>>) {
    deck.Some? ==> forall i :: 0 <= i < |deck.value| ==> WritableCard(deck.value[i])
  }

  predicate WritableHashes(hashes: seq<bytes>) {
    forall i :: 0 <= i < |hashes| ==> Is32(hashes[i])
  }

  predicate WritablePlayers(players: seq<PlayerState>) {
    forall i :: 0 <= i < |players| ==> WritablePlayer(players[i])
  }

  predicate WritableHead(st: RoundState) {
    Is32(st.gameId) && Is32(st.ruleSetHash) && HashOrNone(st.combinedEntropy) &&
    HashOrNone(st.deckCommitmentHash) && HashOrNone(st.priorStateHash)
  }

  predicate Writable(st: RoundState) {
    WritableHead(st) && WritablePlayers(st.players) &&
    WritableHashes(st.hiddenCommitmentRefs) && WritableHashes(st.successorTemplateHashes) &&
    WritableDeck(st.concealedDeck)
  }

  /** Whatever the encoding theorems call encodable, the encoder accepts. */
  lemma InRangeIsWritable(st: RoundState)
    requires StateInRange(st)
    ensures Writable(st)
  {
    forall i | 0 <= i < |st.players|
      ensures WritablePlayer(st.players[i])
    {
      assert ValidPlayer(st.players[i]);
    }
    if st.concealedDeck.Some? {
      var deck := st.concealedDeck.value;
      forall i | 0 <= i < |deck|
        ensures WritableCard(deck[i])
      {
        assert ValidCard(deck[i]);
      }
    }
  }

  // ----- states the engine makes -----

  /** A card as the encoder wants it: 32-byte commitment and nonce, and a key of at least 32 bytes. */
  predicate Measured(c: ConcealedCard) {
    |c.commitment.commitment| == 32 && |c.commitment.cardNonce| == 32 && |c.holderPubkey| >= 32
  }

  /** What the encoder asks of an action's own bytes: its key, its hashes, its cards. */
  predicate Supplies(body: ActionBody) {
    match body
    case Join(key, _) => Is32(key)
    case EntropyCommit(commitment, _) => Is32(commitment)
    case EntropyReveal(entropy, _) => Is32(entropy)
    case DealConcealed(cards) => forall i :: 0 <= i < |cards| ==> Measured(cards[i])
    case _ => true
  }

  predicate PartsWritable(st: RoundState) {
    WritablePlayers(st.players) && WritableDeck(st.concealedDeck)
  }

  /** Join stores the key as the identity; hashes appear with their flags and nowhere else. */
  predicate EngineMade(p: PlayerState) {
    p.playerId == p.pubkey && (p.commitmentHash.Some? ==> p.entropyCommitted) &&
    (p.entropyValue.Some? ==> p.entropyRevealed)
  }

  ghost predicate AllMade(players: seq<PlayerState>) {
    forall i :: 0 <= i < |players| ==> EngineMade(players[i])
  }

  ghost predicate RunState(st: RoundState) {
    AllMade(st.players) &&
    st.hiddenCommitmentRefs == [] && st.successorTemplateHashes == [] &&
    st.combinedEntropy.None? && st.deckCommitmentHash.None? &&
    Is32(st.stateHash) && HashOrNone(st.priorStateHash)
  }

  /** What one action does to the encodable parts of a state. */
  ghost predicate Steps(st: RoundState, body: ActionBody, st': RoundState) {
    RunState(st') && st'.gameId == st.gameId && st'.ruleSetHash == st.ruleSetHash &&
    (PartsWritable(st') <==> PartsWritable(st) && Supplies(body))
  }

  lemma JoinSteps(impl: Impl, st: RoundState, seat: Option<int>, key: bytes, stake: int, rs: RuleSet)
    requires RunState(st) && ApplyJoin(impl, st, seat, key, stake, rs).Ok?
    ensures Steps(st, Join(key, stake), ApplyJoin(impl, st, seat, key, stake, rs).value)
  {
    var st' := ApplyJoin(impl, st, seat, key, stake, rs).value;
    var p := st'.players[|st.players|];
    assert WritablePlayer(p) <==> Is32(key);
    assert forall i :: 0 <= i < |st.players| ==> st'.players[i] == st.players[i];
  }

  /** Replacing one player changes writability by that player alone. */
  lemma ReplacePlayer(players: seq<PlayerState>, i: nat, p: PlayerState, supplied: bool)
    requires AllMade(players) && i < |players| && EngineMade(p)
    requires WritablePlayer(p) <==> WritablePlayer(players[i]) && supplied
    ensures AllMade(players[i := p])
    ensures WritablePlayers(players[i := p]) <==> WritablePlayers(players) && supplied
  {
    var next := players[i := p];
    assert next[i] == p;
    assert forall k :: 0 <= k < |players| && k != i ==> next[k] == players[k];
  }

  lemma RevealPlayer(players: seq<PlayerState>, i: nat, entropy: bytes) returns (next: seq<PlayerState>)
    requires AllMade(players) && i < |players| && !players[i].entropyRevealed
    ensures next == players[i := players[i].(entropyRevealed := true, entropyValue := Some(entropy), status := Active)]
    ensures AllMade(next) && (WritablePlayers(next) <==> WritablePlayers(players) && Is32(entropy))
  {
    var p := players[i].(entropyRevealed := true, entropyValue := Some(entropy), status := Active);
    assert EngineMade(players[i]);
    ReplacePlayer(players, i, p, Is32(entropy));
    next := players[i := p];
  }

  /** A handler that replaces the players and moves on. */
  lemma PlayersStep(st: RoundState, body: ActionBody, next: seq<PlayerState>, st': RoundState)
    requires RunState(st) && AllMade(next) && (WritablePlayers(next) <==> WritablePlayers(st.players) && Supplies(body))
    requires st' == Advance(st.(players := next), st'.stateClass)
    ensures Steps(st, body, st')
  {
  }

  lemma CommitResult(st: RoundState, seat: Option<int>, commitment: bytes) returns (i: nat, cls: StateClass)
    requires ApplyEntropyCommit(st, seat, commitment).Ok?
    ensures i < |st.players| && !st.players[i].entropyCommitted
    ensures var p := st.players[i].(entropyCommitted := true, commitmentHash := Some(commitment));
            ApplyEntropyCommit(st, seat, commitment) == Ok(Advance(st.(players := st.players[i := p]), cls))
  {
    i := FindSeat(st.players, seat.value);
    cls := ApplyEntropyCommit(st, seat, commitment).value.stateClass;
  }

  lemma CommitPlayer(players: seq<PlayerState>, i: nat, commitment: bytes) returns (next: seq<PlayerState>)
    requires AllMade(players) && i < |players| && !players[i].entropyCommitted
    ensures next == players[i := players[i].(entropyCommitted := true, commitmentHash := Some(commitment))]
    ensures AllMade(next) && (WritablePlayers(next) <==> WritablePlayers(players) && Is32(commitment))
  {
    var p := players[i].(entropyCommitted := true, commitmentHash := Some(commitment));
    assert EngineMade(players[i]);
    ReplacePlayer(players, i, p, Is32(commitment));
    next := players[i := p];
  }

  lemma CommittedState(st: RoundState, seat: Option<int>, commitment: bytes)
    returns (next: seq<PlayerState>, st': RoundState)
    requires RunState(st) && ApplyEntropyCommit(st, seat, commitment).Ok?
    ensures ApplyEntropyCommit(st, seat, commitment) == Ok(st')
    ensures st' == Advance(st.(players := next), st'.stateClass)
    ensures AllMade(next) && (WritablePlayers(next) <==> WritablePlayers(st.players) && Is32(commitment))
  {
    var i, cls := CommitResult(st, seat, commitment);
    next := CommitPlayer(st.players, i, commitment);
    st' := Advance(st.(players := next), cls);
  }

  lemma CommitSteps(st: RoundState, seat: Option<int>, commitment: bytes, spelling: Spelling)
    requires RunState(st) && ApplyEntropyCommit(st, seat, commitment).Ok?
    ensures Steps(st, EntropyCommit(commitment, spelling), ApplyEntropyCommit(st, seat, commitment).value)
  {
    var next, st' := CommittedState(st, seat, commitment);
    PlayersStep(st, EntropyCommit(commitment, spelling), next, st');
  }

  lemma RevealResult(st: RoundState, seat: Option<int>, entropy: bytes) returns (i: nat, cls: StateClass)
    requires ApplyEntropyReveal(st, seat, entropy).Ok?
    ensures i < |st.players| && !st.players[i].entropyRevealed
    ensures var p := st.players[i].(entropyRevealed := true, entropyValue := Some(entropy), status := Active);
            ApplyEntropyReveal(st, seat, entropy) == Ok(Advance(st.(players := st.players[i := p]), cls))
  {
    i := FindSeat(st.players, seat.value);
    cls := ApplyEntropyReveal(st, seat, entropy).value.stateClass;
  }

  lemma RevealedState(st: RoundState, seat: Option<int>, entropy: bytes)
    returns (next: seq<PlayerState>, st': RoundState)
    requires RunState(st) && ApplyEntropyReveal(st, seat, entropy).Ok?
    ensures ApplyEntropyReveal(st, seat, entropy) == Ok(st') && st' == Advance(st.(players := next), st'.stateClass)
    ensures AllMade(next) && (WritablePlayers(next) <==> WritablePlayers(st.players) && Is32(entropy))
  {
    var i, cls := RevealResult(st, seat, entropy);
    next := RevealPlayer(st.players, i, entropy);
    st' := Advance(st.(players := next), cls);
  }

  lemma RevealSteps(st: RoundState, seat: Option<int>, entropy: bytes, spelling: Spelling)
    requires RunState(st) && ApplyEntropyReveal(st, seat, entropy).Ok?
    ensures Steps(st, EntropyReveal(entropy, spelling), ApplyEntropyReveal(st, seat, entropy).value)
  {
    var next, st' := RevealedState(st, seat, entropy);
    PlayersStep(st, EntropyReveal(entropy, spelling), next, st');
  }

  lemma SurrenderWrites(deck: seq<ConcealedCard>, holder: bytes)
    ensures WritableDeck(Some(Surrender(deck, holder))) <==> WritableDeck(Some(deck))
  {
    var surrendered := Surrender(deck, holder);
    assert forall k :: 0 <= k < |deck| ==> WritableCard(surrendered[k]) == WritableCard(deck[k]);
  }

  lemma FoldSteps(impl: Impl, st: RoundState, seat: Option<int>)
    requires RunState(st) && ApplyFold(impl, st, seat).Ok?
    ensures Steps(st, Fold, ApplyFold(impl, st, seat).value)
  {
    var st' := ApplyFold(impl, st, seat).value;
    var i := FindSeat(st.players, seat.value);
    SurrenderWrites(st.concealedDeck.value, st.players[i].pubkey);
    assert EngineMade(st.players[i]);
    ReplacePlayer(st.players, i, st.players[i].(status := Folded), true);
  }

  lemma SettleSteps(impl: Impl, st: RoundState, rs: RuleSet)
    requires RunState(st) && ApplySettle(impl, st, rs).Ok?
    ensures Steps(st, Settle, ApplySettle(impl, st, rs).value)
  {
    var st' := ApplySettle(impl, st, rs).value;
    assert forall k :: 0 <= k < |st.players| ==>
      st'.players[k] == st.players[k].(stakeAtRisk := st'.players[k].stakeAtRisk);
  }

  lemma DealSteps(impl: Impl, st: RoundState, cards: seq<ConcealedCard>, rs: RuleSet)
    requires RunState(st) && ApplyDealConcealed(impl, st, cards, rs).Ok?
    ensures Steps(st, DealConcealed(cards), ApplyDealConcealed(impl, st, cards, rs).value)
  {
  }

  /** The other handlers bring nothing that is encoded. */
  lemma OtherSteps(impl: Impl, st: RoundState, a: SignedAction, rs: RuleSet, height: int)
    requires !TouchesPlayers(a.body) && !a.body.DealConcealed? && RunState(st) && Apply(impl, st, a, rs, height).Ok?
    ensures Steps(st, a.body, Apply(impl, st, a, rs, height).value)
  {
    OthersKeepPlayers(impl, st, a, rs, height);
    OthersKeepHeader(impl, st, a, rs, height);
    StepCarries(impl, st, a, rs, height);
  }

  lemma OthersKeepHeader(impl: Impl, st: RoundState, a: SignedAction, rs: RuleSet, height: int)
    requires !TouchesPlayers(a.body) && !a.body.DealConcealed? && Apply(impl, st, a, rs, height).Ok?
    ensures var st' := Apply(impl, st, a, rs, height).value;
            st'.concealedDeck == st.concealedDeck && st'.gameId == st.gameId && st'.ruleSetHash == st.ruleSetHash &&
            st'.hiddenCommitmentRefs == st.hiddenCommitmentRefs && st'.stateHash == st.stateHash &&
            st'.successorTemplateHashes == st.successorTemplateHashes && st'.priorStateHash == Some(st.stateHash)
  {
  }

  lemma StepSteps(impl: Impl, st: RoundState, a: SignedAction, rs: RuleSet, height: int)
    requires RunState(st) && Apply(impl, st, a, rs, height).Ok?
    ensures Steps(st, a.body, Apply(impl, st, a, rs, height).value)
  {
    match a.body
    case Join(key, stake) => JoinSteps(impl, st, a.seat, key, stake, rs);
    case EntropyCommit(c, spelling) => CommitSteps(st, a.seat, c, spelling);
    case EntropyReveal(e, spelling) => RevealSteps(st, a.seat, e, spelling);
    case DealConcealed(cards) => DealSteps(impl, st, cards, rs);
    case Fold => FoldSteps(impl, st, a.seat);
    case Settle => SettleSteps(impl, st, rs);
    case _ => OtherSteps(impl, st, a, rs, height);
  }

  ghost predicate AllSupply(log: seq<Entry>) {
    forall e :: e in log ==> Supplies(e.action.body)
  }

  lemma AllSupplyTail(log: seq<Entry>)
    requires log != []
    ensures AllSupply(log) <==> Supplies(log[0].action.body) && AllSupply(log[1..])
  {
    assert log == [log[0]] + log[1..];
  }

  lemma {:induction false} RunSteps(impl: Impl, st: RoundState, rs: RuleSet, log: seq<Entry>)
    requires RunState(st) && Run(impl, st, rs, log).Ok?
    ensures var st' := Run(impl, st, rs, log).value;
            RunState(st') && st'.gameId == st.gameId && st'.ruleSetHash == st.ruleSetHash &&
            (PartsWritable(st') <==> PartsWritable(st) && AllSupply(log))
    decreases |log|
  {
    if log != [] {
      var st1 := Apply(impl, st, log[0].action, rs, log[0].height).value;
      StepSteps(impl, st, log[0].action, rs, log[0].height);
      RunSteps(impl, st1, rs, log[1..]);
      AllSupplyTail(log);
    }
  }

  /**
   * The state hash is documented for every state. The state that a run reaches encodes exactly when the
   * session's two hashes are 32 bytes and so is what the accepted actions brought: keys, commitments,
   * entropies and the hashes of dealt cards.
   */
  lemma EngineStateEncodes(
    impl: Impl, gameId: bytes, ruleSetHash: bytes, deadline: int, rs: RuleSet, log: seq<Entry>)
    requires Run(impl, InitialState(gameId, ruleSetHash, deadline), rs, log).Ok?
    ensures Writable(Run(impl, InitialState(gameId, ruleSetHash, deadline), rs, log).value) <==>
              Is32(gameId) && Is32(ruleSetHash) && AllSupply(log)
  {
    RunSteps(impl, InitialState(gameId, ruleSetHash, deadline), rs, log);
  }

  /** The keys of the protocol are 33 bytes: with one such player seated no state of a run encodes. */
  lemma CompressedKeysDoNotEncode(
    impl: Impl, gameId: bytes, ruleSetHash: bytes, deadline: int, rs: RuleSet, log: seq<Entry>, e: Entry)
    requires Run(impl, InitialState(gameId, ruleSetHash, deadline), rs, log).Ok?
    requires e in log && e.action.body.Join? && |e.action.body.playerPubkey| == 33
    ensures !Writable(Run(impl, InitialState(gameId, ruleSetHash, deadline), rs, log).value)
  {
    EngineStateEncodes(impl, gameId, ruleSetHash, deadline, rs, log);
    assert !Supplies(e.action.body);
  }

  /** computeStateHash, or None where the encoder throws. */
  ghost function StateHash(h: Hash, st: RoundState): Option<Digest> {
    if Writable(st) then Some(h(EncodeRoundState(st))) else None
  }

  /** States in range have a hash, and equal hashes mean states equal on the encoded fields. */
  lemma StateHashIdentifies(h: Hash, a: RoundState, b: RoundState)
    requires StateInRange(a) && StateInRange(b) && CollisionFreeOn(h, {EncodeRoundState(a), EncodeRoundState(b)})
    ensures StateHash(h, a).Some? && StateHash(h, b).Some?
    ensures StateHash(h, a) == StateHash(h, b) <==> StateView(a) == StateView(b)
  {
    InRangeIsWritable(a);
    InRangeIsWritable(b);
    StateHashBinds(h, a, b);
  }

  // ----- loops -----

  /** The array encoders: the count, then one part per element. */
  method EncodeList<T>(enc: T -> bytes, items: seq<T>) returns (b: bytes)
    ensures b == EncodeArray(enc, items)
  {
    var parts := [Varint(|items|)];
    FlatOne(Varint(|items|));
    for i := 0 to |items|
      invariant Flat(parts) == Varint(|items|) + Each(enc, items[..i])
    {
      FlatOne(enc(items[i]));
      FlatConcat(parts, [enc(items[i])]);
      EachNext(enc, items, i);
      Assoc(Varint(|items|), Each(enc, items[..i]), enc(items[i]));
      parts := parts + [enc(items[i])];
    }
    assert items[..|items|] == items;
    b := ConcatParts(parts);
  }

  /** One list of parts for the players, each already encoded. */
  method ConcatPlayers(players: seq<PlayerState>, encoded: seq<bytes>) returns (b: bytes)
    requires |encoded| == |players| && forall i :: 0 <= i < |players| ==> encoded[i] == EncPlayer(players[i])
    ensures b == EncodeArray(EncPlayer, players)
  {
    FlatMany(EncPlayer, players, encoded);
    FlatOne(Varint(|players|));
    FlatConcat([Varint(|players|)], encoded);
    b := ConcatParts([Varint(|players|)] + encoded);
  }

  /** keys is the insertion order of the record; the sort makes it irrelevant. */
  method EncodePreferences(keys: seq<bytes>, prefs: map<bytes, bytes>) returns (b: bytes)
    requires Enumerates(keys, prefs)
    ensures b == EncPreferences(prefs)
  {
    var sorted := Sort(StringLE, keys);
    SortedKeysUnique(keys, prefs);
    SortedKeysFacts(prefs);
    b := EncodeList(EncodePair, PairsOf(sorted, prefs));
  }

  method EncodePlayer(p: PlayerState, keys: seq<bytes>) returns (b: Option<bytes>)
    requires Enumerates(keys, p.preferences)
    ensures b == if WritablePlayer(p) then Some(EncPlayer(p)) else None
  {
    if !WritablePlayer(p) { return None; }
    var refs := EncodeList(Prefixed, p.concealedCardRefs);
    var prefs := EncodePreferences(keys, p.preferences);
    var all := ConcatParts(PlayerHead(p) + (PlayerEntropy(p) + [refs, prefs]));
    return Some(all);
  }

  method EncodeDeck(deck: Option<seq<ConcealedCard>>) returns (b: Option<bytes>)
    ensures b == if WritableDeck(deck) then Some(EncOptionalDeck(deck)) else None
  {
    if deck.None? { return Some([0]); }
    for i := 0 to |deck.value|
      invariant forall k :: 0 <= k < i ==> WritableCard(deck.value[k])
    {
      if !WritableCard(deck.value[i]) { return None; }
    }
    var cards := EncodeList(EncCard, deck.value);
    return Some([1] + cards);
  }

  method EncodeHashes(hashes: seq<bytes>) returns (b: Option<bytes>)
    ensures b == if WritableHashes(hashes) then Some(EncodeArray(Same32, hashes)) else None
  {
    for i := 0 to |hashes|
      invariant forall k :: 0 <= k < i ==> Is32(hashes[k])
    {
      if |hashes[i]| != 32 { return None; }
    }
    var all := EncodeList(Same32, hashes);
    return Some(all);
  }

  ghost predicate Orders(orders: seq<seq<bytes>>, players: seq<PlayerState>) {
    |orders| == |players| && forall i :: 0 <= i < |players| ==> Enumerates(orders[i], players[i].preferences)
  }

  method EncodePlayers(players: seq<PlayerState>, orders: seq<seq<bytes>>) returns (b: Option<bytes>)
    requires Orders(orders, players)
    ensures b == if forall i :: 0 <= i < |players| ==> WritablePlayer(players[i])
                 then Some(EncodeArray(EncPlayer, players)) else None
  {
    var encoded: seq<bytes> := [];
    for i := 0 to |players|
      invariant |encoded| == i
      invariant forall k :: 0 <= k < i ==> WritablePlayer(players[k]) && encoded[k] == EncPlayer(players[k])
    {
      var p := EncodePlayer(players[i], orders[i]);
      if p.None? { return None; }
      encoded := encoded + [p.value];
    }
    var all := ConcatPlayers(players, encoded);
    return Some(all);
  }

  /** The state's encoding, or None where a hash or key is not 32 bytes. */
  method EncodeState(st: RoundState, orders: seq<seq<bytes>>) returns (b: Option<bytes>)
    requires Orders(orders, st.players)
    ensures b == if Writable(st) then Some(EncodeRoundState(st)) else None
  {
    if !WritableHead(st) { return None; }
    var players := EncodePlayers(st.players, orders);
    if players.None? { return None; }
    var visible := EncodeList(EncVisible, st.visibleCards);
    var hidden := EncodeHashes(st.hiddenCommitmentRefs);
    if hidden.None? { return None; }
    var actions := EncodeList(EncAction, st.allowedActions);
    var templates := EncodeHashes(st.successorTemplateHashes);
    if templates.None? { return None; }
    var deck := EncodeDeck(st.concealedDeck);
    if deck.None? { return None; }
    var middle := [players.value, EncU64(st.potValue), visible, hidden.value, actions];
    var deadlines := [EncOptionalU32(st.decisionDeadline), EncOptionalU32(st.recoveryDeadline), templates.value];
    var tail := [EncOptionalHash(st.combinedEntropy), EncOptionalHash(st.deckCommitmentHash), deck.value,
                 EncOptionalHash(st.priorStateHash), Zeros(32)];
    var all := ConcatParts(StateHead(st) + (middle + (deadlines + tail)));
    return Some(all);
  }
}
