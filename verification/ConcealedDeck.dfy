/** The concealed deck from the moment it is dealt: a complete set of positions that only folds touch. */
module ConcealedDeck {
  import opened Wrappers
  import opened Bytes
  import opened Protocol
  import opened Sequences
  import opened Engine
  import opened Replay
  import opened Invariants

  /** n cards at n distinct positions below n fill every position. */
  lemma {:induction false} PositionsFill(cards: seq<ConcealedCard>, n: nat, p: int)
    requires ValidPositions(cards, n) && |cards| == n && 0 <= p < n
    ensures exists i :: 0 <= i < n && cards[i].commitment.position == p
  {
    var taken := set i | 0 <= i < n :: cards[i].commitment.position;
    PositionsSize(cards, n, n);
    assert taken <= Below(n);
    SubsetOfSameSize(taken, Below(n));
    assert p in taken;
  }

  lemma {:induction false} PositionsSize(cards: seq<ConcealedCard>, n: nat, k: nat)
    requires ValidPositions(cards, n) && k <= |cards|
    ensures |set i | 0 <= i < k :: cards[i].commitment.position| == k
  {
    if k > 0 {
      PositionsSize(cards, n, k - 1);
      var before := set i | 0 <= i < k - 1 :: cards[i].commitment.position;
      var last := cards[k - 1].commitment.position;
      assert last !in before;
      assert (set i | 0 <= i < k :: cards[i].commitment.position) == before + {last};
    }
  }

  ghost function Below(n: nat): (r: set<int>)
    ensures |r| == n && forall k :: k in r <==> 0 <= k < n
  {
    if n == 0 then {} else Below(n - 1) + {n - 1}
  }

  lemma SubsetOfSameSize<T>(a: set<T>, b: set<T>)
    requires a <= b && |a| == |b|
    ensures a == b
  {
    assert |b - a| == |b| - |a|;
  }

  /** Once dealt, every position 0..deck_format-1 is held by exactly one card, in every state of the run. */
  lemma DeckIsComplete(
    impl: Impl, gameId: bytes, ruleSetHash: bytes, deadline: int, rs: RuleSet, log: seq<Entry>, p: int)
    requires Run(impl, InitialState(gameId, ruleSetHash, deadline), rs, log).Ok?
    requires Run(impl, InitialState(gameId, ruleSetHash, deadline), rs, log).value.concealedDeck.Some?
    requires 0 <= p < rs.deckFormat
    ensures var deck := Run(impl, InitialState(gameId, ruleSetHash, deadline), rs, log).value.concealedDeck.value;
            exists i :: 0 <= i < |deck| && deck[i].commitment.position == p &&
              forall j :: 0 <= j < |deck| && deck[j].commitment.position == p ==> j == i
  {
    RunKeeps(impl, InitialState(gameId, ruleSetHash, deadline), rs, log);
    var deck := Run(impl, InitialState(gameId, ruleSetHash, deadline), rs, log).value.concealedDeck.value;
    PositionsFill(deck, rs.deckFormat, p);
  }

  function Keys(players: seq<PlayerState>): (s: seq<(int, bytes)>)
    ensures |s| == |players|
  {
    seq(|players|, i requires 0 <= i < |players| => (players[i].seat, players[i].pubkey))
  }

  /** This entry is a Fold signed for a seat whose key is `holder`. */
  ghost predicate Folds(e: Entry, keys: seq<(int, bytes)>, holder: bytes) {
    e.action.body == Fold && e.action.seat.Some? && (e.action.seat.value, holder) in keys
  }

  ghost predicate FoldedBy(log: seq<Entry>, keys: seq<(int, bytes)>, holder: bytes) {
    exists k :: 0 <= k < |log| && Folds(log[k], keys, holder)
  }

  /** One card before and after: an assigned card is surrendered exactly by a fold of its holder's key. */
  ghost predicate CardKept(before: ConcealedCard, after: ConcealedCard, log: seq<Entry>, keys: seq<(int, bytes)>) {
    after == if before.lifecycle == ASSIGNED_CONCEALED && FoldedBy(log, keys, before.holderPubkey)
             then before.(lifecycle := SURRENDERED) else before
  }

  ghost predicate DeckKept(st: RoundState, st': RoundState, log: seq<Entry>) {
    st.concealedDeck.Some? && st'.concealedDeck.Some? && Keys(st'.players) == Keys(st.players) &&
    var d, d' := st.concealedDeck.value, st'.concealedDeck.value;
    |d'| == |d| && forall i :: 0 <= i < |d| ==> CardKept(d[i], d'[i], log, Keys(st.players))
  }

  lemma LifecyclesDiffer()
    ensures ASSIGNED_CONCEALED != SURRENDERED
  {
    assert |ASSIGNED_CONCEALED| == 18 && |SURRENDERED| == 11;
  }

  lemma KeyOfSeat(players: seq<PlayerState>, seat: int, key: bytes)
    requires Distinct(SeatsOf(players)) && FindSeat(players, seat) >= 0
    ensures (seat, key) in Keys(players) <==> players[FindSeat(players, seat)].pubkey == key
  {
    var i, keys := FindSeat(players, seat), Keys(players);
    assert keys[i] == (seat, players[i].pubkey);
    if (seat, key) in keys {
      var k :| 0 <= k < |keys| && keys[k] == (seat, key);
      assert SeatsOf(players)[k] == seat && SeatsOf(players)[i] == seat;
    }
  }

  /**
   * An accepted fold surrenders the folder's whole hand: each assigned card of its key, at least one, changes its
   * lifecycle and nothing else, no other card changes, and no card of that key stays assigned.
   */
  lemma FoldSurrenders(impl: Impl, st: RoundState, a: SignedAction, rs: RuleSet, height: int, key: bytes)
    requires WellFormed(rs, st) && a.body == Fold && Apply(impl, st, a, rs, height).Ok?
    requires a.seat.Some? && (a.seat.value, key) in Keys(st.players)
    ensures var st' := Apply(impl, st, a, rs, height).value;
            st.concealedDeck.Some? && st'.concealedDeck.Some? &&
            var d, d' := st.concealedDeck.value, st'.concealedDeck.value;
            |d'| == |d| &&
            (forall i :: 0 <= i < |d| ==>
              if d[i].holderPubkey == key && d[i].lifecycle == ASSIGNED_CONCEALED
              then d'[i] == d[i].(lifecycle := SURRENDERED) else d'[i] == d[i]) &&
            (exists i :: 0 <= i < |d| && d'[i] != d[i]) &&
            forall i :: 0 <= i < |d'| ==> !(d'[i].holderPubkey == key && d'[i].lifecycle == ASSIGNED_CONCEALED)
  {
    var d, i := st.concealedDeck.value, FindSeat(st.players, a.seat.value);
    KeyOfSeat(st.players, a.seat.value, key);
    LifecyclesDiffer();
    var k :| 0 <= k < |d| && InHand(d[k], key);
    assert Apply(impl, st, a, rs, height).value.concealedDeck == Some(Surrender(d, key));
    assert Surrender(d, key)[k] != d[k];
  }

  lemma FoldKeepsDeck(impl: Impl, st: RoundState, e: Entry, rs: RuleSet)
    requires WellFormed(rs, st) && st.concealedDeck.Some? && e.action.body == Fold
    requires Apply(impl, st, e.action, rs, e.height).Ok?
    ensures DeckKept(st, Apply(impl, st, e.action, rs, e.height).value, [e])
  {
    var d, st' := st.concealedDeck.value, Apply(impl, st, e.action, rs, e.height).value;
    var seat := e.action.seat.value;
    var key := st.players[FindSeat(st.players, seat)].pubkey;
    KeyOfSeat(st.players, seat, key);
    FoldSurrenders(impl, st, e.action, rs, e.height, key);
    assert Keys(st'.players) == Keys(st.players);
    forall i | 0 <= i < |d|
      ensures CardKept(d[i], st'.concealedDeck.value[i], [e], Keys(st.players))
    {
      KeyOfSeat(st.players, seat, d[i].holderPubkey);
      OneEntry(e, Keys(st.players), d[i].holderPubkey);
    }
  }

  lemma OneEntry(e: Entry, keys: seq<(int, bytes)>, holder: bytes)
    ensures FoldedBy([e], keys, holder) <==> Folds(e, keys, holder)
  {
    assert [e][0] == e;
  }

  lemma FoldedByEither(a: seq<Entry>, b: seq<Entry>, keys: seq<(int, bytes)>, holder: bytes)
    ensures FoldedBy(a + b, keys, holder) <==> FoldedBy(a, keys, holder) || FoldedBy(b, keys, holder)
  {
    if FoldedBy(a, keys, holder) {
      var k :| 0 <= k < |a| && Folds(a[k], keys, holder);
      assert (a + b)[k] == a[k];
    }
    if FoldedBy(b, keys, holder) {
      var k :| 0 <= k < |b| && Folds(b[k], keys, holder);
      assert (a + b)[|a| + k] == b[k];
    }
    if FoldedBy(a + b, keys, holder) {
      var k :| 0 <= k < |a + b| && Folds((a + b)[k], keys, holder);
      assert (a + b)[k] == if k < |a| then a[k] else b[k - |a|];
    }
  }

  lemma StepKeepsDeck(impl: Impl, st: RoundState, e: Entry, rs: RuleSet)
    requires WellFormed(rs, st) && st.concealedDeck.Some? && Apply(impl, st, e.action, rs, e.height).Ok?
    ensures DeckKept(st, Apply(impl, st, e.action, rs, e.height).value, [e])
  {
    if e.action.body == Fold {
      FoldKeepsDeck(impl, st, e, rs);
    } else {
      OthersKeepDeck(impl, st, e.action, rs, e.height);
      NoFold(e, st);
      if TouchesPlayers(e.action.body) {
        UpdateKeepsKeys(impl, st, e.action, rs, e.height);
      } else {
        OthersKeepPlayers(impl, st, e.action, rs, e.height);
      }
    }
  }

  lemma NoFold(e: Entry, st: RoundState)
    requires e.action.body != Fold
    ensures forall holder :: !FoldedBy([e], Keys(st.players), holder)
  {
  }

  lemma OthersKeepDeck(impl: Impl, st: RoundState, a: SignedAction, rs: RuleSet, height: int)
    requires WellFormed(rs, st) && st.concealedDeck.Some? && a.body != Fold && Apply(impl, st, a, rs, height).Ok?
    ensures Apply(impl, st, a, rs, height).value.concealedDeck == st.concealedDeck && !a.body.Join?
  {
  }

  lemma UpdateKeepsKeys(impl: Impl, st: RoundState, a: SignedAction, rs: RuleSet, height: int)
    requires a.body.EntropyCommit? || a.body.EntropyReveal? || a.body == Settle
    requires Apply(impl, st, a, rs, height).Ok?
    ensures Keys(Apply(impl, st, a, rs, height).value.players) == Keys(st.players)
  {
  }

  lemma DeckKeptTransitive(s0: RoundState, s1: RoundState, s2: RoundState, a: seq<Entry>, b: seq<Entry>)
    requires DeckKept(s0, s1, a) && DeckKept(s1, s2, b)
    ensures DeckKept(s0, s2, a + b)
  {
    var d0, d1, d2, keys := s0.concealedDeck.value, s1.concealedDeck.value, s2.concealedDeck.value, Keys(s0.players);
    LifecyclesDiffer();
    forall i | 0 <= i < |d0|
      ensures CardKept(d0[i], d2[i], a + b, keys)
    {
      FoldedByEither(a, b, keys, d0[i].holderPubkey);
      assert CardKept(d0[i], d1[i], a, keys) && CardKept(d1[i], d2[i], b, keys);
    }
  }

  /**
   * Over any continuation of a run, dealt cards keep position, commitment, nonce, ciphertext, outpoint and
   * holder; a card is surrendered exactly when it was assigned and the log folds a seat with its holder's key.
   */
  lemma {:induction false} RunKeepsDeck(impl: Impl, st: RoundState, rs: RuleSet, log: seq<Entry>)
    requires WellFormed(rs, st) && st.concealedDeck.Some? && Run(impl, st, rs, log).Ok?
    ensures DeckKept(st, Run(impl, st, rs, log).value, log)
    decreases |log|
  {
    if log != [] {
      var e := log[0];
      var st1 := Apply(impl, st, e.action, rs, e.height).value;
      StepKeeps(impl, st, e.action, rs, e.height);
      StepKeepsDeck(impl, st, e, rs);
      RunKeepsDeck(impl, st1, rs, log[1..]);
      DeckKeptTransitive(st, st1, Run(impl, st1, rs, log[1..]).value, [e], log[1..]);
      assert log == [e] + log[1..];
    }
  }
}
