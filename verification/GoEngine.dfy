/** The handlers with loops, step by step: those of the Go relay, and the deal and the fold of both engines. */
module GoEngine {
  import opened Wrappers
  import opened Bytes
  import opened Protocol
  import opened Sequences
  import opened Sorting
  import opened Engine

  method FindSeatLoop(players: seq<PlayerState>, s: int) returns (r: int)
    ensures r == FindSeat(players, s)
  {
    var seats := SeatsOf(players);
    for i := 0 to |players|
      invariant s !in seats[..i]
    {
      if players[i].seat == s {
        assert seats[i] == s;
        return i;
      }
    }
    assert seats[..|players|] == seats;
    return -1;
  }

  method IndexOfLoop(s: array<int>, x: int) returns (r: int)
    ensures r == IndexOf(s[..], x)
  {
    for i := 0 to s.Length
      invariant x !in s[..i]
    {
      if s[i] == x {
        assert s[..][..i] == s[..i];
        return i;
      }
    }
    assert s[..s.Length] == s[..];
    return -1;
  }

  method Join(st: RoundState, a: SignedAction, pubkey: bytes, stake: int, rs: RuleSet) returns (r: StepResult)
    ensures r == ApplyJoin(GoRelay, st, a.seat, pubkey, stake, rs)
  {
    if st.stateClass != S1SeatOpen {
      return Err(InvalidActionForState);
    }
    if stake != rs.stakeAmount {
      return Err(InvalidStakeAmount);
    }
    if |st.players| >= rs.playerCountMax {
      return Err(TableFull);
    }
    var seat: int := |st.players|;
    if a.seat.Some? {
      seat := a.seat.value;
    }
    ghost var seats := SeatsOf(st.players);
    for i := 0 to |st.players|
      invariant seat !in seats[..i]
    {
      if st.players[i].seat == seat {
        assert seats[i] == seat;
        return Err(PlayerAlreadySeated);
      }
    }
    assert seats[..|st.players|] == seats;
    var next := st;
    next := next.(players := next.players + [
      PlayerState(seat, pubkey, pubkey, Joined, stake, None, false, None, false, None, [], map[])]);
    next := next.(priorStateHash := Some(st.stateHash));
    return Ok(next);
  }

  method EntropyCommit(st: RoundState, a: SignedAction, commitment: bytes) returns (r: StepResult)
    ensures r == ApplyEntropyCommit(st, a.seat, commitment)
  {
    if st.stateClass != S3EntropyCommit {
      return Err(InvalidActionForState);
    }
    if a.seat.None? {
      return Err(SeatOutOfRange);
    }
    var idx := FindSeatLoop(st.players, a.seat.value);
    if idx < 0 {
      return Err(PlayerNotSeated);
    }
    if st.players[idx].entropyCommitted {
      return Err(InvalidStateTransition);
    }
    var p := st.players[idx].(entropyCommitted := true, commitmentHash := Some(commitment));
    var next := st.(players := st.players[idx := p]);
    var all := true;
    for i := 0 to |next.players|
      invariant all <==> AllCommitted(next.players[..i])
    {
      if !next.players[i].entropyCommitted {
        all := false;
      }
      assert next.players[..i + 1] == next.players[..i] + [next.players[i]];
    }
    assert next.players[..|next.players|] == next.players;
    next := next.(stateClass := if all then S4EntropyReveal else S3EntropyCommit);
    next := next.(allowedActions := LegalActions(next.stateClass), priorStateHash := Some(st.stateHash));
    return Ok(next);
  }

  method EntropyReveal(st: RoundState, a: SignedAction, entropy: bytes) returns (r: StepResult)
    ensures r == ApplyEntropyReveal(st, a.seat, entropy)
  {
    if st.stateClass != S4EntropyReveal {
      return Err(InvalidActionForState);
    }
    if a.seat.None? {
      return Err(SeatOutOfRange);
    }
    var idx := FindSeatLoop(st.players, a.seat.value);
    if idx < 0 {
      return Err(PlayerNotSeated);
    }
    if !st.players[idx].entropyCommitted || st.players[idx].entropyRevealed {
      return Err(InvalidStateTransition);
    }
    var p := st.players[idx].(entropyRevealed := true, entropyValue := Some(entropy), status := Active);
    var next := st.(players := st.players[idx := p]);
    var all := true;
    for i := 0 to |next.players|
      invariant all <==> AllRevealed(next.players[..i])
    {
      if !next.players[i].entropyRevealed {
        all := false;
      }
      assert next.players[..i + 1] == next.players[..i] + [next.players[i]];
    }
    assert next.players[..|next.players|] == next.players;
    next := next.(stateClass := if all then S5DeckCommitted else S4EntropyReveal);
    next := next.(allowedActions := LegalActions(next.stateClass), priorStateHash := Some(st.stateHash));
    return Ok(next);
  }

  /** Both engines' check of a dealt deck: a set of positions already seen. */
  method CheckPositions(cards: seq<ConcealedCard>, n: nat) returns (valid: bool)
    ensures valid <==> ValidPositions(cards, n)
  {
    var seen: set<int> := {};
    for i := 0 to |cards|
      invariant seen == set k | 0 <= k < i :: cards[k].commitment.position
      invariant ValidPositions(cards[..i], n)
    {
      var p := cards[i].commitment.position;
      if p < 0 || p >= n {
        return false;
      }
      if p in seen {
        return false;
      }
      seen := seen + {p};
    }
    assert cards[..|cards|] == cards;
    return true;
  }

  /** applyDealConcealed, of either engine. */
  method DealConcealed(impl: Impl, st: RoundState, cards: seq<ConcealedCard>, rs: RuleSet) returns (r: StepResult)
    ensures r == ApplyDealConcealed(impl, st, cards, rs)
  {
    if st.stateClass != S5DeckCommitted {
      return Err(InvalidActionForState);
    }
    if st.concealedDeck.Some? && (impl.TypeScript? || |st.concealedDeck.value| > 0) {
      return Err(InvalidStateTransition);
    }
    if |cards| != rs.deckFormat {
      return Err(InvalidStateTransition);
    }
    var valid := CheckPositions(cards, rs.deckFormat);
    if !valid {
      return Err(InvalidStateTransition);
    }
    return Ok(st.(concealedDeck := Some(cards), priorStateHash := Some(st.stateHash)));
  }

  /** Both engines' fold loop: a copy of the deck with the holder's cards surrendered, and how many were. */
  method SurrenderLoop(deck: seq<ConcealedCard>, holder: bytes) returns (updated: seq<ConcealedCard>, touched: nat)
    ensures updated == Surrender(deck, holder)
    ensures touched == 0 <==> forall k :: 0 <= k < |deck| ==> !InHand(deck[k], holder)
  {
    updated, touched := [], 0;
    for i := 0 to |deck|
      invariant |updated| == i
      invariant forall k :: 0 <= k < i ==> updated[k] == Surrender(deck, holder)[k]
      invariant touched == 0 <==> forall k :: 0 <= k < i ==> !InHand(deck[k], holder)
    {
      if deck[i].holderPubkey == holder && deck[i].lifecycle == ASSIGNED_CONCEALED {
        updated := updated + [deck[i].(lifecycle := SURRENDERED)];
        touched := touched + 1;
      } else {
        updated := updated + [deck[i]];
      }
    }
  }

  /** applyFold, of either engine. */
  method Fold(impl: Impl, st: RoundState, a: SignedAction) returns (r: StepResult)
    ensures r == ApplyFold(impl, st, a.seat)
  {
    if st.stateClass != S8BetDecision && st.stateClass != S7CardRevealSecond {
      return Err(InvalidActionForState);
    }
    if a.seat.None? {
      return Err(SeatOutOfRange);
    }
    if st.concealedDeck.None? || (impl.GoRelay? && |st.concealedDeck.value| == 0) {
      return Err(InvalidActionForState);
    }
    var idx := FindSeatLoop(st.players, a.seat.value);
    if idx < 0 {
      return Err(PlayerNotSeated);
    }
    var updated, touched := SurrenderLoop(st.concealedDeck.value, st.players[idx].pubkey);
    if touched == 0 {
      return Err(InvalidActionForState);
    }
    var next := st.(players := st.players[idx := st.players[idx].(status := Folded)]);
    next := next.(concealedDeck := Some(updated), stateClass := S11RotateTurn);
    next := next.(allowedActions := LegalActions(S11RotateTurn), priorStateHash := Some(st.stateHash));
    return Ok(next);
  }

  method Settle(st: RoundState, rs: RuleSet) returns (r: StepResult)
    ensures r == ApplySettle(GoRelay, st, rs)
  {
    if st.stateClass != S10SettledRound {
      return Err(InvalidActionForState);
    }
    if |st.visibleCards| != 3 {
      return Err(InvalidStateTransition);
    }
    if st.actingSeat.None? {
      return Err(SeatOutOfRange);
    }
    var vt := ValueTransfer(Classify(st.visibleCards), st.potValue, rs.settlementRules);
    var newPot := st.potValue + vt.potDelta;
    if newPot < 0 {
      return Err(InvalidStateTransition);
    }
    ghost var paid := Pay(st.players, st.actingSeat.value, vt.playerDelta);
    var players := st.players;
    for i := 0 to |st.players|
      invariant |players| == |paid|
      invariant forall k :: 0 <= k < i ==> players[k] == paid[k]
      invariant forall k :: i <= k < |paid| ==> players[k] == st.players[k]
      invariant forall k :: 0 <= k < i && paid[k].seat == st.actingSeat.value ==> paid[k].stakeAtRisk >= 0
    {
      if players[i].seat == st.actingSeat.value {
        var nextBal := players[i].stakeAtRisk + vt.playerDelta;
        if nextBal < 0 {
          assert paid[i].stakeAtRisk == nextBal;
          return Err(InvalidStateTransition);
        }
        players := players[i := players[i].(stakeAtRisk := nextBal)];
      }
    }
    assert players == paid;
    var next := st.(stateClass := S11RotateTurn, potValue := newPot, players := players);
    next := next.(allowedActions := LegalActions(S11RotateTurn), priorStateHash := Some(st.stateHash));
    return Ok(next);
  }

  /** Collect the seats, then sort them in place. */
  method SortSeats(players: seq<PlayerState>) returns (seats: array<int>)
    ensures fresh(seats) && seats[..] == SortedSeats(players)
  {
    seats := new int[|players|](i requires 0 <= i < |players| => players[i].seat);
    assert seats[..] == SeatsOf(players);
    SortInPlace(SeatLE, seats);
  }

  method RotateTurn(st: RoundState) returns (r: StepResult)
    ensures r == ApplyRotateTurn(GoRelay, st)
  {
    if st.stateClass != S11RotateTurn {
      return Err(InvalidActionForState);
    }
    var seats := SortSeats(st.players);
    if seats.Length == 0 {
      return Err(TableNotLockable);
    }
    var nextSeat, wrapped := seats[0], false;
    if st.actingSeat.Some? {
      var i := IndexOfLoop(seats, st.actingSeat.value);
      nextSeat := seats[(i + 1) % seats.Length];
      wrapped := nextSeat == seats[0];
    }
    var next := st.(priorStateHash := Some(st.stateHash));
    if wrapped {
      next := next.(stateClass := S12TableClose, allowedActions := LegalActions(S12TableClose));
      return Ok(next);
    }
    next := next.(stateClass := S6CardRevealFirst, roundNumber := st.roundNumber + 1);
    next := next.(actingSeat := Some(nextSeat), visibleCards := [], allowedActions := LegalActions(S6CardRevealFirst));
    return Ok(next);
  }

  /** The relay's dispatcher. Handlers without loops are the shared expressions. */
  method ApplyAction(st: RoundState, a: SignedAction, rs: RuleSet, height: int) returns (r: StepResult)
    ensures r == Apply(GoRelay, st, a, rs, height)
  {
    if a.gameId != st.gameId {
      return Err(StaleState);
    }
    if a.body != Recovery && TypeOf(a.body) !in LegalActions(st.stateClass) {
      return Err(InvalidActionForState);
    }
    match a.body
    case Join(pubkey, stake) => r := Join(st, a, pubkey, stake, rs);
    case TableLock => r := ApplyTableLock(st, rs);
    case EntropyCommit(c, _) => r := EntropyCommit(st, a, c);
    case EntropyReveal(e, _) => r := EntropyReveal(st, a, e);
    case CardReveal(p, _) => r := ApplyCardReveal(st, p.revealedCard);
    case DealConcealed(cards) => r := DealConcealed(GoRelay, st, cards, rs);
    case Bet(amount) => r := ApplyBet(GoRelay, st, amount, rs);
    case Pass => r := ApplyPass(st);
    case Fold => r := Fold(GoRelay, st, a);
    case Settle => r := Settle(st, rs);
    case RotateTurn => r := RotateTurn(st);
    case TableClose => r := ApplyTableClose(st);
    case Timeout => r := ApplyTimeout(st, height);
    case Recovery => r := ApplyRecovery(st, height);
  }
}
