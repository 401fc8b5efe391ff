/** The bound on accepted actions is reached: a game that wastes nothing, for every table size. */
module LongestRun {
  import opened Wrappers
  import opened Bytes
  import opened Protocol
  import opened Sequences
  import opened Sorting
  import opened Engine
  import opened Replay
  import opened Invariants
  import opened Progress

  const GAME: bytes := Zeros(32)

  /** Stakes, bets and penalties of zero, a standard deck, and room for n players. */
  function Rules(n: nat): RuleSet {
    RuleSet(
      1, n, 0, 0, 0, 0, 0, 0, map[], PenaltySchedule(0, 0, 0, 0), 52, 1, SettlementRules(1, 1, 0, 0),
      RecoveryRules(true, false, false), 1)
  }

  function BlankCard(): RevealedCard { RevealedCard([], [], 0) }

  function DeckCard(position: nat): ConcealedCard {
    ConcealedCard(CardCommitment(position, [], []), [], [], [], ASSIGNED_CONCEALED)
  }

  function DealtDeck(): (deck: seq<ConcealedCard>)
    ensures |deck| == 52 && ValidPositions(deck, 52)
  {
    seq(52, i requires 0 <= i < 52 => DeckCard(i))
  }

  function ShowBlank(): ActionBody { CardReveal(RevealProof(0, BlankCard(), [], []), LowerCase) }

  /** Seats 0, 1, 2, ... in joining order. */
  ghost predicate Numbered(players: seq<PlayerState>) {
    forall i :: 0 <= i < |players| ==> players[i].seat == i && players[i].stakeAtRisk == 0
  }

  ghost predicate AllEqual(cards: seq<RevealedCard>) {
    forall i :: 0 <= i < |cards| ==> cards[i] == BlankCard()
  }

  /** The classes of the game that wastes nothing: it settles round 0 and passes every later one. */
  predicate OnTheWay(st: RoundState) {
    match st.stateClass
    case S1SeatOpen => true
    case S3EntropyCommit => true
    case S4EntropyReveal => true
    case S5DeckCommitted => true
    case S6CardRevealFirst => true
    case S8BetDecision => true
    case S9CardRevealThird => st.roundNumber == 0
    case S10SettledRound => st.roundNumber == 0
    case S11RotateTurn => true
    case S12TableClose => true
    case _ => false
  }

  ghost predicate OnPath(n: nat, st: RoundState) {
    n >= 1 && WellFormed(Rules(n), st) && OnTheWay(st) && st.gameId == GAME && st.potValue == 0 &&
    Numbered(st.players) && AllEqual(st.visibleCards) && (st.stateClass != S1SeatOpen ==> |st.players| == n)
  }

  function FirstOpen(players: seq<PlayerState>, done: PlayerState -> bool): (i: nat)
    ensures i <= |players| && (i < |players| ==> !done(players[i]))
    ensures i == |players| ==> forall k :: 0 <= k < |players| ==> done(players[k])
  {
    if players == [] then 0 else if !done(players[0]) then 0 else 1 + FirstOpen(players[1..], done)
  }

  function Signed(seat: int, body: ActionBody): SignedAction {
    SignedAction(GAME, [], Some(seat), body)
  }

  /** The next action of the game. */
  function Next(n: nat, st: RoundState): SignedAction {
    match st.stateClass
    case S1SeatOpen => if |st.players| < n then Signed(|st.players|, Join([], 0)) else Signed(0, TableLock)
    case S3EntropyCommit => Signed(FirstOpen(st.players, Committed), EntropyCommit([], LowerCase))
    case S4EntropyReveal => Signed(FirstOpen(st.players, EntropyShown), EntropyReveal([], LowerCase))
    case S5DeckCommitted =>
      if st.concealedDeck.None? then Signed(0, DealConcealed(DealtDeck())) else Signed(0, ShowBlank())
    case S8BetDecision => if st.roundNumber == 0 then Signed(0, Bet(0)) else Signed(0, Pass)
    case S10SettledRound => Signed(0, Settle)
    case S11RotateTurn => Signed(0, RotateTurn)
    case _ => Signed(0, ShowBlank())
  }

  ghost predicate Wins(impl: Impl, n: nat, st: RoundState) {
    var r := Apply(impl, st, Next(n, st), Rules(n), 0);
    r.Ok? && OnPath(n, r.value) && Potential(Rules(n), r.value) == Potential(Rules(n), st) - 1 &&
    Counted(Next(n, st).body)
  }

  // ----- one lemma per phase -----

  lemma Seated(players: seq<PlayerState>)
    requires Numbered(players)
    ensures Distinct(SeatsOf(players)) && Increasing(SeatsOf(players)) && SortedSeats(players) == SeatsOf(players)
    ensures forall i :: 0 <= i < |players| ==> FindSeat(players, i) == i && Rank(players, i) == i
  {
    var seats := SeatsOf(players);
    SortIsSorted(SeatLE, seats);
    SortedIsUnique(SeatLE, seats, Sort(SeatLE, seats));
    forall i | 0 <= i < |players|
      ensures IndexOf(seats, i) == i
    {
      IndexOfIncreasing(seats, i);
    }
  }

  lemma {:induction false} CountDone(players: seq<PlayerState>, done: PlayerState -> bool)
    requires forall i :: 0 <= i < |players| ==> done(players[i])
    ensures Count(players, done) == 0
  {
    if players != [] {
      CountDone(players[1..], done);
    }
  }

  lemma OpenWins(impl: Impl, n: nat, st: RoundState)
    requires OnPath(n, st) && st.stateClass == S1SeatOpen && (impl.TypeScript? ==> n <= MAX_SAFE)
    ensures Wins(impl, n, st)
  {
    var a := Next(n, st);
    if |st.players| < n {
      assert |st.players| !in SeatsOf(st.players);
    } else {
      CountAll(st.players, Committed);
    }
    StepKeeps(impl, st, a, Rules(n), 0);
  }

  /** An accepted commit or reveal that moves to state st' by replacing one player's record. */
  lemma OneMoreDone(n: nat, st: RoundState, st': RoundState, done: PlayerState -> bool, i: nat, p: PlayerState)
    requires OnPath(n, st) && i < |st.players| && !done(st.players[i]) && done(p)
    requires p.seat == i && p.stakeAtRisk == 0 && st'.players == st.players[i := p]
    requires WellFormed(Rules(n), st') && OnTheWay(st') && st.stateClass != S1SeatOpen
    requires st'.gameId == GAME && st'.potValue == 0 && st'.visibleCards == st.visibleCards
    ensures OnPath(n, st') && Count(st'.players, done) == Count(st.players, done) - 1
  {
    CountUpdate(st.players, done, i, p);
  }

  lemma CommitAccepted(impl: Impl, n: nat, st: RoundState)
    returns (i: nat, p: PlayerState, st': RoundState)
    requires OnPath(n, st) && st.stateClass == S3EntropyCommit
    ensures Apply(impl, st, Next(n, st), Rules(n), 0) == Ok(st')
    ensures i < |st.players| && !Committed(st.players[i]) && Committed(p) && p.seat == i && p.stakeAtRisk == 0
    ensures st'.players == st.players[i := p] && st'.concealedDeck == st.concealedDeck
    ensures st'.gameId == GAME && st'.potValue == 0 && st'.visibleCards == st.visibleCards
    ensures st'.stateClass == if AllCommitted(st'.players) then S4EntropyReveal else S3EntropyCommit
  {
    Seated(st.players);
    i := FirstOpen(st.players, Committed);
    p := st.players[i].(entropyCommitted := true, commitmentHash := Some([]));
    st' := Apply(impl, st, Next(n, st), Rules(n), 0).value;
  }

  lemma CommitWins(impl: Impl, n: nat, st: RoundState)
    requires OnPath(n, st) && st.stateClass == S3EntropyCommit
    ensures Wins(impl, n, st)
  {
    var i, p, st' := CommitAccepted(impl, n, st);
    StepKeeps(impl, st, Next(n, st), Rules(n), 0);
    OneMoreDone(n, st, st', Committed, i, p);
    if st'.stateClass == S4EntropyReveal {
      CountDone(st'.players, Committed);
      CountAll(st'.players, EntropyShown);
    }
  }

  lemma ShownResult(impl: Impl, n: nat, st: RoundState)
    returns (i: nat, p: PlayerState, st': RoundState)
    requires OnPath(n, st) && st.stateClass == S4EntropyReveal
    ensures Apply(impl, st, Next(n, st), Rules(n), 0) == Ok(st')
    ensures i < |st.players| && !EntropyShown(st.players[i]) && EntropyShown(p) && p.seat == i && p.stakeAtRisk == 0
    ensures st'.players == st.players[i := p] && st'.concealedDeck == st.concealedDeck
    ensures st'.gameId == GAME && st'.potValue == 0 && st'.visibleCards == st.visibleCards
    ensures st'.stateClass == if AllRevealed(st'.players) then S5DeckCommitted else S4EntropyReveal
  {
    Seated(st.players);
    i := FirstOpen(st.players, EntropyShown);
    p := st.players[i].(entropyRevealed := true, entropyValue := Some([]), status := Active);
    st' := Apply(impl, st, Next(n, st), Rules(n), 0).value;
  }

  lemma RevealWins(impl: Impl, n: nat, st: RoundState)
    requires OnPath(n, st) && st.stateClass == S4EntropyReveal
    ensures Wins(impl, n, st)
  {
    var i, p, st' := ShownResult(impl, n, st);
    StepKeeps(impl, st, Next(n, st), Rules(n), 0);
    OneMoreDone(n, st, st', EntropyShown, i, p);
    if st'.stateClass == S5DeckCommitted {
      CountDone(st'.players, EntropyShown);
    }
  }

  lemma DealWins(impl: Impl, n: nat, st: RoundState)
    requires OnPath(n, st) && st.stateClass == S5DeckCommitted
    ensures Wins(impl, n, st)
  {
    StepKeeps(impl, st, Next(n, st), Rules(n), 0);
  }

  /** Whoever acts in round r has rank r, so n - 1 - r seats are still to come. */
  lemma SeatsToCome(n: nat, st: RoundState)
    requires OnPath(n, st) && st.actingSeat.Some?
    ensures SeatsAbove(st) == n - 1 - st.roundNumber && 0 <= st.roundNumber < n
  {
    Seated(st.players);
    ActingRank(Rules(n), st);
    assert Acting(st);
  }

  lemma ShowWins(impl: Impl, n: nat, st: RoundState)
    requires OnPath(n, st) && st.stateClass in {S6CardRevealFirst, S9CardRevealThird}
    ensures Wins(impl, n, st)
  {
    var r := Apply(impl, st, Next(n, st), Rules(n), 0);
    StepKeeps(impl, st, Next(n, st), Rules(n), 0);
    assert OnPath(n, r.value);
    SeatsToCome(n, r.value);
    if st.actingSeat.Some? {
      SeatsToCome(n, st);
    }
  }

  lemma DecideWins(impl: Impl, n: nat, st: RoundState)
    requires OnPath(n, st) && st.stateClass == S8BetDecision
    ensures Wins(impl, n, st)
  {
    DecideAccepts(impl, n, st);
    StepKeeps(impl, st, Next(n, st), Rules(n), 0);
  }

  lemma DecideAccepts(impl: Impl, n: nat, st: RoundState)
    requires OnPath(n, st) && st.stateClass == S8BetDecision
    ensures Apply(impl, st, Next(n, st), Rules(n), 0)
         == Ok(Advance(st, if st.roundNumber == 0 then S9CardRevealThird else S11RotateTurn))
  {
  }

  lemma SettleWins(impl: Impl, n: nat, st: RoundState)
    requires OnPath(n, st) && st.stateClass == S10SettledRound
    ensures Wins(impl, n, st)
  {
    var t := ValueTransfer(Classify(st.visibleCards), st.potValue, Rules(n).settlementRules);
    assert t == Transfer(0, 0);
    var paid := Pay(st.players, st.actingSeat.value, 0);
    assert paid == st.players;
    assert Apply(impl, st, Next(n, st), Rules(n), 0).Ok?;
    StepKeeps(impl, st, Next(n, st), Rules(n), 0);
  }

  lemma RotateAccepts(impl: Impl, st: RoundState)
    requires st.stateClass == S11RotateTurn && st.players != []
    requires impl.TypeScript? ==> 0 <= st.roundNumber + 1 <= MAX_SAFE
    ensures ApplyRotateTurn(impl, st).Ok?
  {
    SortIsSorted(SeatLE, SeatsOf(st.players));
  }

  lemma RotateLeaves(impl: Impl, st: RoundState)
    requires ApplyRotateTurn(impl, st).Ok?
    ensures var st' := ApplyRotateTurn(impl, st).value;
            st'.players == st.players && st'.potValue == st.potValue && st'.gameId == st.gameId &&
            (st'.visibleCards == st.visibleCards || st'.visibleCards == []) &&
            st'.stateClass in {S6CardRevealFirst, S12TableClose}
  {
  }

  lemma RotateAccepted(impl: Impl, n: nat, st: RoundState)
    requires OnPath(n, st) && st.stateClass == S11RotateTurn && (impl.TypeScript? ==> n <= MAX_SAFE)
    ensures ApplyRotateTurn(impl, st).Ok? && OnPath(n, ApplyRotateTurn(impl, st).value)
    ensures Apply(impl, st, Next(n, st), Rules(n), 0) == ApplyRotateTurn(impl, st)
  {
    SeatsToCome(n, st);
    RotateAccepts(impl, st);
    RotateKeeps(impl, st, Rules(n));
    RotateLeaves(impl, st);
  }

  lemma RotateWins(impl: Impl, n: nat, st: RoundState)
    requires OnPath(n, st) && st.stateClass == S11RotateTurn && (impl.TypeScript? ==> n <= MAX_SAFE)
    ensures Wins(impl, n, st)
  {
    RotateAccepted(impl, n, st);
    SeatsToCome(n, st);
    var st', i := RotateResult(impl, Rules(n), st);
    RotateStep(impl, st);
    if st'.stateClass == S6CardRevealFirst {
      SeatsToCome(n, st');
    }
  }

  /** Every action of the game uses up exactly one unit. */
  lemma NextWins(impl: Impl, n: nat, st: RoundState)
    requires OnPath(n, st) && st.stateClass != S12TableClose && (impl.TypeScript? ==> n <= MAX_SAFE)
    ensures Wins(impl, n, st)
  {
    match st.stateClass
    case S1SeatOpen => OpenWins(impl, n, st);
    case S3EntropyCommit => CommitWins(impl, n, st);
    case S4EntropyReveal => RevealWins(impl, n, st);
    case S5DeckCommitted => DealWins(impl, n, st);
    case S8BetDecision => DecideWins(impl, n, st);
    case S10SettledRound => SettleWins(impl, n, st);
    case S11RotateTurn => RotateWins(impl, n, st);
    case _ => ShowWins(impl, n, st);
  }

  // ----- the whole game -----

  /** Play from st until the given potential is left. */
  lemma {:induction false} PlayTo(impl: Impl, n: nat, st: RoundState, left: nat)
    returns (log: seq<Entry>, st': RoundState)
    requires OnPath(n, st) && left <= Potential(Rules(n), st) && (impl.TypeScript? ==> n <= MAX_SAFE)
    ensures Run(impl, st, Rules(n), log) == Ok(st') && OnPath(n, st')
    ensures Potential(Rules(n), st') == left && Accepted(log) == Potential(Rules(n), st) - left
    decreases Potential(Rules(n), st) - left
  {
    if left == Potential(Rules(n), st) {
      log, st' := [], st;
    } else {
      NextWins(impl, n, st);
      var e := Entry(Next(n, st), 0);
      var st1 := Apply(impl, st, e.action, Rules(n), 0).value;
      var rest;
      rest, st' := PlayTo(impl, n, st1, left);
      log := [e] + rest;
      assert log[1..] == rest;
    }
  }

  lemma StartsOnPath(n: nat, deadline: int)
    requires n >= 1
    ensures OnPath(n, InitialState(GAME, GAME, deadline))
  {
  }

  /** For every table size some rule set and run accept as many actions as RunsAreBounded allows. */
  lemma BoundIsReached(impl: Impl, n: nat, deadline: int) returns (rs: RuleSet, log: seq<Entry>)
    requires n >= 1 && (impl.TypeScript? ==> n <= MAX_SAFE)
    ensures rs.playerCountMax == n && Run(impl, InitialState(GAME, GAME, deadline), rs, log).Ok?
    ensures Accepted(log) == 6 * rs.playerCountMax + 5
  {
    rs := Rules(n);
    StartsOnPath(n, deadline);
    var st;
    log, st := PlayTo(impl, n, InitialState(GAME, GAME, deadline), 0);
  }

  // ----- a later round that cannot settle -----

  /** With two units left at a table of two, the second seat is deciding. */
  lemma SecondDecision(st: RoundState)
    requires OnPath(2, st) && Potential(Rules(2), st) == 2
    ensures st.stateClass == S8BetDecision && st.roundNumber == 1
  {
    if st.actingSeat.Some? {
      SeatsToCome(2, st);
    }
  }

  /** From the second seat's decision, a bet and a card lead to S10 with two cards. */
  lemma StuckAfter(impl: Impl, st: RoundState) returns (log: seq<Entry>, st': RoundState)
    requires OnPath(2, st) && st.stateClass == S8BetDecision && st.roundNumber == 1
    ensures Run(impl, st, Rules(2), log) == Ok(st')
    ensures st'.stateClass == S10SettledRound && st'.roundNumber == 1 && |st'.visibleCards| == 2
  {
    var bet, show := Entry(Signed(1, Bet(0)), 0), Entry(Signed(1, ShowBlank()), 0);
    var st1 := Advance(st.(potValue := st.potValue + 0), S9CardRevealThird);
    assert Apply(impl, st, bet.action, Rules(2), 0) == Ok(st1);
    st' := Advance(st1.(visibleCards := st1.visibleCards + [BlankCard()]), S10SettledRound);
    assert Apply(impl, st1, show.action, Rules(2), 0) == Ok(st');
    log := [bet, show];
    TwoSteps(impl, st, Rules(2), bet, show, st1, st');
  }

  lemma TwoSteps(
    impl: Impl, st: RoundState, rs: RuleSet, e1: Entry, e2: Entry, st1: RoundState, st2: RoundState)
    requires Apply(impl, st, e1.action, rs, e1.height) == Ok(st1)
    requires Apply(impl, st1, e2.action, rs, e2.height) == Ok(st2)
    ensures Run(impl, st, rs, [e1, e2]) == Ok(st2)
  {
    assert [e1, e2][1..] == [e2] && [e2][1..] == [];
    assert Run(impl, st1, rs, [e2]) == Run(impl, st2, rs, []);
  }

  /** A run whose second round bets instead of passing: it reaches S10 with two cards and cannot settle there. */
  lemma LaterRoundGetsStuck(impl: Impl, deadline: int)
    returns (rs: RuleSet, log: seq<Entry>, st: RoundState)
    ensures Run(impl, InitialState(GAME, GAME, deadline), rs, log) == Ok(st)
    ensures st.stateClass == S10SettledRound && st.roundNumber == 1 && |st.visibleCards| == 2
    ensures Apply(impl, st, Signed(1, Settle), rs, 0).Err?
  {
    rs := Rules(2);
    StartsOnPath(2, deadline);
    var played, decision := PlayTo(impl, 2, InitialState(GAME, GAME, deadline), 2);
    SecondDecision(decision);
    var rest;
    rest, st := StuckAfter(impl, decision);
    log := played + rest;
    RunConcat(impl, InitialState(GAME, GAME, deadline), rs, played, rest);
  }
}
