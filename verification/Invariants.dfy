/** What every accepted action keeps, and the facts about every state of a run that follow. */
module Invariants {
  import opened Wrappers
  import opened Protocol
  import opened Sorting
  import opened Sequences
  import opened Engine
  import opened Replay

  ghost predicate NoneCommitted(players: seq<PlayerState>) {
    forall i :: 0 <= i < |players| ==> !players[i].entropyCommitted
  }

  ghost predicate NoneRevealed(players: seq<PlayerState>) {
    forall i :: 0 <= i < |players| ==> !players[i].entropyRevealed
  }

  /** Rank of a seat among the seats in ascending order. */
  function Rank(players: seq<PlayerState>, seat: int): int {
    IndexOf(SortedSeats(players), seat)
  }

  /** Seats are filled and every one of them has committed and revealed. */
  ghost predicate Sealed(st: RoundState) {
    st.players != [] && AllCommitted(st.players) && AllRevealed(st.players)
  }

  /** The acting seat is seated, and the round number counts ranks from the first joiner's. */
  ghost predicate Acting(st: RoundState) {
    st.players != [] && st.actingSeat.Some? && st.actingSeat.value in SeatsOf(st.players) &&
    st.roundNumber >= 0 &&
    Rank(st.players, st.actingSeat.value) == Rank(st.players, st.players[0].seat) + st.roundNumber
  }

  ghost predicate Opening(st: RoundState) {
    st.actingSeat.None? && st.roundNumber == 0
  }

  ghost predicate ClassFacts(st: RoundState) {
    match st.stateClass
    case S0TableOpen => false
    case S1SeatOpen =>
      Opening(st) && NoneCommitted(st.players) && NoneRevealed(st.players) && st.visibleCards == [] &&
        st.concealedDeck.None?
    case S2TableLocked => false
    case S3EntropyCommit =>
      Opening(st) && (st.players != [] ==> !AllCommitted(st.players)) && NoneRevealed(st.players) &&
      st.visibleCards == [] && st.concealedDeck.None?
    case S4EntropyReveal =>
      Opening(st) && AllCommitted(st.players) && !AllRevealed(st.players) && st.visibleCards == [] &&
        st.concealedDeck.None?
    case S5DeckCommitted => Opening(st) && Sealed(st) && st.visibleCards == []
    case S6CardRevealFirst =>
      Sealed(st) &&
      if st.roundNumber == 0 then st.actingSeat.None? && |st.visibleCards| == 1
      else Acting(st) && st.visibleCards == []
    case S7CardRevealSecond => false
    case S8BetDecision => Sealed(st) && Acting(st) && |st.visibleCards| == if st.roundNumber == 0 then 2 else 1
    case S9CardRevealThird => Sealed(st) && Acting(st) && |st.visibleCards| == if st.roundNumber == 0 then 2 else 1
    case S10SettledRound => Sealed(st) && Acting(st) && |st.visibleCards| == if st.roundNumber == 0 then 3 else 2
    case S11RotateTurn => Sealed(st) && Acting(st)
    case S12TableClose => Sealed(st) && Acting(st) && Rank(st.players, st.actingSeat.value) == |st.players| - 1
    case Recovered => if st.actingSeat.Some? then Acting(st) else st.roundNumber == 0
  }

  /** The invariant of every run. */
  ghost predicate WellFormed(rs: RuleSet, st: RoundState) {
    Distinct(SeatsOf(st.players)) &&
    |st.players| <= rs.playerCountMax &&
    st.decisionDeadline.None? &&
    (st.concealedDeck.Some? ==>
      |st.concealedDeck.value| == rs.deckFormat && ValidPositions(st.concealedDeck.value, rs.deckFormat)) &&
    ClassFacts(st)
  }

  // ----- sorted seats -----

  /** Seats in ascending order: strictly increasing, and exactly the seats of the table. */
  lemma SortedSeatsFacts(players: seq<PlayerState>)
    requires Distinct(SeatsOf(players))
    ensures var s := SortedSeats(players);
            |s| == |players| && Increasing(s) && forall x :: x in s <==> x in SeatsOf(players)
  {
    var s, seats := SortedSeats(players), SeatsOf(players);
    SortIsSorted(SeatLE, seats);
    forall x
      ensures x in s <==> x in seats
    {
      assert x in s <==> x in multiset(s);
    }
    DistinctMultiset(seats);
    forall i, j | 0 <= i < j < |s|
      ensures s[i] < s[j]
    {
      OnceOnly(s, i, j);
      assert SeatLE(s[i], s[j]);
    }
  }

  lemma Wrap(i: nat, n: nat)
    requires i < n
    ensures (i + 1) % n == if i == n - 1 then 0 else i + 1
  {
  }

  lemma NextByRank(s: seq<int>, x: int)
    requires x in s
    ensures var i := IndexOf(s, x);
            0 <= i < |s| && s[i] == x && NextSeat(s, x) == if i == |s| - 1 then s[0] else s[i + 1]
  {
    Wrap(IndexOf(s, x), |s|);
  }

  /** In an increasing list the cyclic successor is the next larger entry, or the first after the last. */
  lemma NextInCycle(s: seq<int>, x: int)
    requires x in s && Increasing(s)
    ensures var i := IndexOf(s, x);
            var next := NextSeat(s, x);
            0 <= i < |s| && s[i] == x &&
            (next == s[0] <==> i == |s| - 1) &&
            (i < |s| - 1 ==> next == s[i + 1] && next > x && IndexOf(s, next) == i + 1)
  {
    var i := IndexOf(s, x);
    NextByRank(s, x);
    if i < |s| - 1 {
      IndexOfIncreasing(s, i + 1);
    }
  }

  // ----- one lemma per group of handlers -----

  lemma JoinKeeps(impl: Impl, st: RoundState, a: SignedAction, rs: RuleSet, height: int)
    requires WellFormed(rs, st) && (a.body.Join? || a.body == TableLock)
    requires Apply(impl, st, a, rs, height).Ok?
    ensures WellFormed(rs, Apply(impl, st, a, rs, height).value)
  {
    var st' := Apply(impl, st, a, rs, height).value;
    if a.body.Join? {
      assert SeatsOf(st'.players) == SeatsOf(st.players) + [st'.players[|st.players|].seat];
    } else if st.players != [] {
      assert !st.players[0].entropyCommitted;
    }
  }

  lemma SameSeats(players: seq<PlayerState>, i: nat, p: PlayerState)
    requires i < |players| && p.seat == players[i].seat
    ensures SeatsOf(players[i := p]) == SeatsOf(players)
    ensures SortedSeats(players[i := p]) == SortedSeats(players)
  {
    assert SeatsOf(players[i := p]) == SeatsOf(players);
  }

  lemma EntropyKeeps(impl: Impl, st: RoundState, a: SignedAction, rs: RuleSet, height: int)
    requires WellFormed(rs, st) && (a.body.EntropyCommit? || a.body.EntropyReveal?)
    requires Apply(impl, st, a, rs, height).Ok?
    ensures WellFormed(rs, Apply(impl, st, a, rs, height).value)
  {
    var st' := Apply(impl, st, a, rs, height).value;
    var i := FindSeat(st.players, a.seat.value);
    SameSeats(st.players, i, st'.players[i]);
  }

  lemma RevealKeeps(impl: Impl, st: RoundState, a: SignedAction, rs: RuleSet, height: int)
    requires WellFormed(rs, st) && (a.body.CardReveal? || a.body.DealConcealed?)
    requires Apply(impl, st, a, rs, height).Ok?
    ensures WellFormed(rs, Apply(impl, st, a, rs, height).value)
  {
    if st.stateClass == S6CardRevealFirst {
      assert st.players[0].seat == SeatsOf(st.players)[0];
    }
  }

  lemma BetKeeps(impl: Impl, st: RoundState, a: SignedAction, rs: RuleSet, height: int)
    requires WellFormed(rs, st) && (a.body.Bet? || a.body == Pass || a.body == Timeout)
    requires Apply(impl, st, a, rs, height).Ok?
    ensures WellFormed(rs, Apply(impl, st, a, rs, height).value)
  {
  }

  lemma FoldKeeps(impl: Impl, st: RoundState, seat: Option<int>, rs: RuleSet)
    requires WellFormed(rs, st) && ApplyFold(impl, st, seat).Ok?
    ensures WellFormed(rs, ApplyFold(impl, st, seat).value)
  {
    var st' := ApplyFold(impl, st, seat).value;
    var i := FindSeat(st.players, seat.value);
    SameSeats(st.players, i, st'.players[i]);
  }

  lemma SettleKeeps(impl: Impl, st: RoundState, a: SignedAction, rs: RuleSet, height: int)
    requires WellFormed(rs, st) && a.body == Settle
    requires Apply(impl, st, a, rs, height).Ok?
    ensures WellFormed(rs, Apply(impl, st, a, rs, height).value)
  {
    var st' := Apply(impl, st, a, rs, height).value;
    assert SeatsOf(st'.players) == SeatsOf(st.players);
  }

  /**
   * From acting rank i, RotateTurn opens a round for rank i + 1, or closes the table exactly
   * when i is the last rank.
   */
  lemma RotateStep(impl: Impl, st: RoundState)
    requires st.stateClass == S11RotateTurn && ApplyRotateTurn(impl, st).Ok?
    requires Distinct(SeatsOf(st.players)) && st.actingSeat.Some? && st.actingSeat.value in SeatsOf(st.players)
    ensures var st' := ApplyRotateTurn(impl, st).value;
            var seats := SortedSeats(st.players);
            var i := Rank(st.players, st.actingSeat.value);
            0 <= i < |seats| &&
            (st'.stateClass == S12TableClose <==> i == |seats| - 1) &&
            (i == |seats| - 1 ==> st'.actingSeat == st.actingSeat && st'.roundNumber == st.roundNumber) &&
            (i < |seats| - 1 ==>
              st'.stateClass == S6CardRevealFirst && st'.roundNumber == st.roundNumber + 1 &&
              st'.actingSeat == Some(seats[i + 1]) && seats[i + 1] > st.actingSeat.value &&
              Rank(st.players, seats[i + 1]) == i + 1)
  {
    SortedSeatsFacts(st.players);
    var seats := SortedSeats(st.players);
    NextInCycle(seats, st.actingSeat.value);
    RotateBy(impl, st, seats, NextSeat(seats, st.actingSeat.value));
  }

  /** An accepted rotation goes to next, or closes when next is the first seat. */
  lemma RotateBy(impl: Impl, st: RoundState, seats: seq<int>, next: int)
    requires ApplyRotateTurn(impl, st).Ok? && seats == SortedSeats(st.players) != [] && st.actingSeat.Some?
    requires next == NextSeat(seats, st.actingSeat.value)
    ensures var st' := ApplyRotateTurn(impl, st).value;
            if next == seats[0] then
              st'.stateClass == S12TableClose && st'.actingSeat == st.actingSeat && st'.roundNumber == st.roundNumber
            else
              st'.stateClass == S6CardRevealFirst && st'.roundNumber == st.roundNumber + 1 &&
                st'.actingSeat == Some(next)
  {
  }

  lemma RotateActs(impl: Impl, st: RoundState, rs: RuleSet)
    requires WellFormed(rs, st) && ApplyRotateTurn(impl, st).Ok?
    ensures var st' := ApplyRotateTurn(impl, st).value;
            Acting(st') && (st'.stateClass == S6CardRevealFirst ==> st'.roundNumber > 0) &&
            (st'.stateClass == S12TableClose ==>
              Rank(st'.players, st'.actingSeat.value) == |st'.players| - 1)
  {
    RotateStep(impl, st);
    SortedSeatsFacts(st.players);
    var seats := SortedSeats(st.players);
    if ApplyRotateTurn(impl, st).value.stateClass == S6CardRevealFirst {
      assert seats[Rank(st.players, st.actingSeat.value) + 1] in seats;
      assert st.players[0].seat == SeatsOf(st.players)[0];
    }
  }

  lemma RotateKeepsRest(impl: Impl, st: RoundState)
    requires ApplyRotateTurn(impl, st).Ok?
    ensures var st' := ApplyRotateTurn(impl, st).value;
            st'.players == st.players && st'.concealedDeck == st.concealedDeck &&
            st'.decisionDeadline == st.decisionDeadline &&
            ((st'.stateClass == S6CardRevealFirst && st'.visibleCards == []) || st'.stateClass == S12TableClose)
  {
  }

  lemma RotateKeeps(impl: Impl, st: RoundState, rs: RuleSet)
    requires WellFormed(rs, st) && ApplyRotateTurn(impl, st).Ok?
    ensures WellFormed(rs, ApplyRotateTurn(impl, st).value)
  {
    RotateActs(impl, st, rs);
    RotateKeepsRest(impl, st);
  }

  lemma RecoveryKeeps(st: RoundState, rs: RuleSet, height: int)
    requires WellFormed(rs, st) && ApplyRecovery(st, height).Ok?
    ensures WellFormed(rs, ApplyRecovery(st, height).value)
  {
  }

  lemma CloseKeeps(impl: Impl, st: RoundState, a: SignedAction, rs: RuleSet, height: int)
    requires WellFormed(rs, st) && (a.body == RotateTurn || a.body == TableClose || a.body == Recovery)
    requires Apply(impl, st, a, rs, height).Ok?
    ensures WellFormed(rs, Apply(impl, st, a, rs, height).value)
  {
    if a.body == RotateTurn {
      RotateKeeps(impl, st, rs);
    } else if a.body == Recovery {
      RecoveryKeeps(st, rs, height);
    }
  }

  /** Every accepted action keeps the invariant. */
  lemma StepKeeps(impl: Impl, st: RoundState, a: SignedAction, rs: RuleSet, height: int)
    requires WellFormed(rs, st) && Apply(impl, st, a, rs, height).Ok?
    ensures WellFormed(rs, Apply(impl, st, a, rs, height).value)
  {
    match a.body
    case Join(_, _) => JoinKeeps(impl, st, a, rs, height);
    case TableLock => JoinKeeps(impl, st, a, rs, height);
    case EntropyCommit(_, _) => EntropyKeeps(impl, st, a, rs, height);
    case EntropyReveal(_, _) => EntropyKeeps(impl, st, a, rs, height);
    case CardReveal(_, _) => RevealKeeps(impl, st, a, rs, height);
    case DealConcealed(_) => RevealKeeps(impl, st, a, rs, height);
    case Bet(_) => BetKeeps(impl, st, a, rs, height);
    case Pass => BetKeeps(impl, st, a, rs, height);
    case Fold => FoldKeeps(impl, st, a.seat, rs);
    case Timeout => BetKeeps(impl, st, a, rs, height);
    case Settle => SettleKeeps(impl, st, a, rs, height);
    case RotateTurn => CloseKeeps(impl, st, a, rs, height);
    case TableClose => CloseKeeps(impl, st, a, rs, height);
    case Recovery => CloseKeeps(impl, st, a, rs, height);
  }

  /** The invariant holds in every state a run reaches. */
  lemma {:induction false} RunKeeps(impl: Impl, st: RoundState, rs: RuleSet, log: seq<Entry>)
    requires WellFormed(rs, st) && Run(impl, st, rs, log).Ok?
    ensures WellFormed(rs, Run(impl, st, rs, log).value)
    decreases |log|
  {
    if log != [] {
      StepKeeps(impl, st, log[0].action, rs, log[0].height);
      RunKeeps(impl, Apply(impl, st, log[0].action, rs, log[0].height).value, rs, log[1..]);
    }
  }
}
