/** Concrete runs on which documented promises fail. */
module Scenarios {
  import opened Wrappers
  import opened Bytes
  import opened Protocol
  import opened Sorting
  import opened Engine
  import opened Replay
  import opened Invariants
  import opened Rotation
  import opened Ledger
  import opened Settlement
  import opened Shuffle
  import opened CryptoCards
  import opened Gate
  import opened Agreement
  import opened Session
  import opened LongestRun
  import opened Effects

  function Start(): RoundState { InitialState(GAME, GAME, 0) }

  function Entered(seat: int, body: ActionBody): Entry {
    Entry(Signed(seat, body), 0)
  }

  function Card(ordinal: int): RevealedCard { RevealedCard([], [], ordinal) }

  function ShowCard(ordinal: int): ActionBody {
    CardReveal(RevealProof(0, Card(ordinal), [], []), LowerCase)
  }

  /** A state of round 0 after its first action. */
  function Table(
    cls: StateClass, players: seq<PlayerState>, acting: Option<int>, pot: int, visible: seq<RevealedCard>): RoundState
  {
    Start().(
      stateClass := cls, players := players, actingSeat := acting, potValue := pot, visibleCards := visible,
      allowedActions := LegalActions(cls), priorStateHash := Some(Zeros(32)))
  }

  function Joiner(seat: int, key: bytes, stake: int): PlayerState {
    PlayerState(seat, key, key, Joined, stake, None, false, None, false, None, [], map[])
  }

  function WithCommitment(p: PlayerState, c: bytes): PlayerState {
    p.(entropyCommitted := true, commitmentHash := Some(c))
  }

  function WithEntropy(p: PlayerState, e: bytes): PlayerState {
    p.(entropyRevealed := true, entropyValue := Some(e), status := Active)
  }

  // ----- single steps -----

  lemma FirstJoin(impl: Impl, rs: RuleSet, seat: int, key: bytes)
    requires rs.playerCountMax > 0 && (impl.TypeScript? ==> 0 <= seat <= MAX_SAFE)
    ensures Apply(impl, Start(), Entered(seat, Join(key, rs.stakeAmount)).action, rs, 0)
         == Ok(Table(S1SeatOpen, [Joiner(seat, key, rs.stakeAmount)], None, 0, []))
  {
    assert [] + [Joiner(seat, key, rs.stakeAmount)] == [Joiner(seat, key, rs.stakeAmount)];
  }

  lemma NextJoin(impl: Impl, rs: RuleSet, players: seq<PlayerState>, seat: int, key: bytes)
    requires |players| < rs.playerCountMax && (impl.TypeScript? ==> 0 <= seat <= MAX_SAFE)
    requires seat !in SeatsOf(players)
    ensures Apply(impl, Table(S1SeatOpen, players, None, 0, []), Entered(seat, Join(key, rs.stakeAmount)).action, rs, 0)
         == Ok(Table(S1SeatOpen, players + [Joiner(seat, key, rs.stakeAmount)], None, 0, []))
  {
  }

  lemma Lock(impl: Impl, rs: RuleSet, players: seq<PlayerState>)
    requires |players| >= rs.playerCountMin
    ensures Apply(impl, Table(S1SeatOpen, players, None, 0, []), Entered(0, TableLock).action, rs, 0)
         == Ok(Table(S3EntropyCommit, players, None, 0, []))
  {
  }

  lemma Commit(impl: Impl, rs: RuleSet, players: seq<PlayerState>, i: nat, c: bytes, spelling: Spelling)
    requires i < |players| && !players[i].entropyCommitted && FindSeat(players, players[i].seat) == i
    ensures var next := players[i := WithCommitment(players[i], c)];
            Apply(impl, Table(S3EntropyCommit, players, None, 0, []),
                  Entered(players[i].seat, EntropyCommit(c, spelling)).action, rs, 0) ==
            Ok(Table(if AllCommitted(next) then S4EntropyReveal else S3EntropyCommit, next, None, 0, []))
  {
  }

  lemma Reveal(impl: Impl, rs: RuleSet, players: seq<PlayerState>, i: nat, e: bytes, spelling: Spelling)
    requires i < |players| && players[i].entropyCommitted && !players[i].entropyRevealed
    requires FindSeat(players, players[i].seat) == i
    ensures var next := players[i := WithEntropy(players[i], e)];
            Apply(impl, Table(S4EntropyReveal, players, None, 0, []),
                  Entered(players[i].seat, EntropyReveal(e, spelling)).action, rs, 0) ==
            Ok(Table(if AllRevealed(next) then S5DeckCommitted else S4EntropyReveal, next, None, 0, []))
  {
  }

  lemma ShowFirst(impl: Impl, rs: RuleSet, players: seq<PlayerState>, a: int)
    ensures Apply(impl, Table(S5DeckCommitted, players, None, 0, []), Entered(0, ShowCard(a)).action, rs, 0)
         == Ok(Table(S6CardRevealFirst, players, None, 0, [Card(a)]))
  {
    assert [] + [Card(a)] == [Card(a)];
  }

  lemma ShowSecond(impl: Impl, rs: RuleSet, players: seq<PlayerState>, a: int, b: int)
    requires players != []
    ensures Apply(impl, Table(S6CardRevealFirst, players, None, 0, [Card(a)]), Entered(0, ShowCard(b)).action, rs, 0)
         == Ok(Table(S8BetDecision, players, Some(players[0].seat), 0, [Card(a), Card(b)]))
  {
    assert [Card(a)] + [Card(b)] == [Card(a), Card(b)];
  }

  lemma PlaceBet(impl: Impl, rs: RuleSet, players: seq<PlayerState>, seat: int, cards: seq<RevealedCard>, bet: int)
    requires rs.minBet <= bet <= rs.maxBet && 0 <= bet <= MAX_SAFE
    ensures Apply(impl, Table(S8BetDecision, players, Some(seat), 0, cards), Entered(seat, Bet(bet)).action, rs, 0)
         == Ok(Table(S9CardRevealThird, players, Some(seat), bet, cards))
  {
  }

  lemma PassOn(impl: Impl, rs: RuleSet, players: seq<PlayerState>, seat: int, cards: seq<RevealedCard>)
    ensures Apply(impl, Table(S8BetDecision, players, Some(seat), 0, cards), Entered(seat, Pass).action, rs, 0)
         == Ok(Table(S11RotateTurn, players, Some(seat), 0, cards))
  {
  }

  lemma ShowThird(impl: Impl, rs: RuleSet, players: seq<PlayerState>, seat: int, pot: int, a: int, b: int, c: int)
    ensures Apply(impl, Table(S9CardRevealThird, players, Some(seat), pot, [Card(a), Card(b)]),
                  Entered(0, ShowCard(c)).action, rs, 0)
         == Ok(Table(S10SettledRound, players, Some(seat), pot, [Card(a), Card(b), Card(c)]))
  {
    assert [Card(a), Card(b)] + [Card(c)] == [Card(a), Card(b), Card(c)];
  }

  /** A run and one more accepted action. */
  lemma Extend(impl: Impl, rs: RuleSet, log: seq<Entry>, e: Entry, s: RoundState, s': RoundState)
    requires Run(impl, Start(), rs, log) == Ok(s) && Apply(impl, s, e.action, rs, e.height) == Ok(s')
    ensures Run(impl, Start(), rs, log + [e]) == Ok(s')
  {
    var all := log + [e];
    assert all[..|log|] == log;
    RunLast(impl, Start(), rs, all);
  }

  lemma {:induction false} RunAlong(
    impl: Impl, rs: RuleSet, log: seq<Entry>, more: seq<Entry>, states: seq<RoundState>)
    requires |states| == |more| + 1 && Run(impl, Start(), rs, log) == Ok(states[0])
    requires forall i :: 0 <= i < |more| ==>
               Apply(impl, states[i], more[i].action, rs, more[i].height) == Ok(states[i + 1])
    ensures Run(impl, Start(), rs, log + more) == Ok(states[|more|])
    decreases more
  {
    if more == [] {
      assert log + more == log;
    } else {
      Extend(impl, rs, log, more[0], states[0], states[1]);
      RunAlong(impl, rs, log + [more[0]], more[1..], states[1..]);
      assert log + more == log + [more[0]] + more[1..];
    }
  }

  // ----- one player -----

  function SoloRules(stake: nat, maxBet: nat): RuleSet {
    RuleSet(
      1, 1, stake, 0, maxBet, 0, 0, 0, map[], PenaltySchedule(0, 0, 0, 0), 52, 1, SettlementRules(1, 1, 0, 0),
      RecoveryRules(true, false, false), 1)
  }

  function Solo(key: bytes, stake: int, c: bytes, e: bytes): PlayerState {
    WithEntropy(WithCommitment(Joiner(0, key, stake), c), e)
  }

  function OpeningLog(key: bytes, stake: int, c: bytes, e: bytes): seq<Entry> {
    [Entered(0, Join(key, stake)), Entered(0, TableLock),
     Entered(0, EntropyCommit(c, LowerCase)), Entered(0, EntropyReveal(e, LowerCase))]
  }

  /** The four states between the opening actions. */
  lemma OpeningSteps(impl: Impl, rs: RuleSet, key: bytes, c: bytes, e: bytes)
    requires rs.playerCountMin <= 1 <= rs.playerCountMax
    ensures var p := Joiner(0, key, rs.stakeAmount);
            var log := OpeningLog(key, rs.stakeAmount, c, e);
            Apply(impl, Start(), log[0].action, rs, 0) == Ok(Table(S1SeatOpen, [p], None, 0, [])) &&
            Apply(impl, Table(S1SeatOpen, [p], None, 0, []), log[1].action, rs, 0)
              == Ok(Table(S3EntropyCommit, [p], None, 0, [])) &&
            Apply(impl, Table(S3EntropyCommit, [p], None, 0, []), log[2].action, rs, 0)
              == Ok(Table(S4EntropyReveal, [WithCommitment(p, c)], None, 0, [])) &&
            Apply(impl, Table(S4EntropyReveal, [WithCommitment(p, c)], None, 0, []), log[3].action, rs, 0)
              == Ok(Table(S5DeckCommitted, [Solo(key, rs.stakeAmount, c, e)], None, 0, []))
  {
    var p := Joiner(0, key, rs.stakeAmount);
    var q := WithCommitment(p, c);
    FirstJoin(impl, rs, 0, key);
    Lock(impl, rs, [p]);
    assert FindSeat([p], 0) == 0 by { assert SeatsOf([p])[0] == 0; }
    assert FindSeat([q], 0) == 0 by { assert SeatsOf([q])[0] == 0; }
    Commit(impl, rs, [p], 0, c, LowerCase);
    assert [p][0 := q] == [q];
    Reveal(impl, rs, [q], 0, e, LowerCase);
    assert [q][0 := WithEntropy(q, e)] == [WithEntropy(q, e)];
  }

  function PlayLog(bet: int, a: int, b: int, c: int): seq<Entry> {
    [Entered(0, ShowCard(a)), Entered(0, ShowCard(b)), Entered(0, Bet(bet)), Entered(0, ShowCard(c))]
  }

  /** The states between these actions. */
  function PlayState(players: seq<PlayerState>, bet: nat, a: int, b: int, c: int, i: nat): RoundState {
    if i == 0 then Table(S5DeckCommitted, players, None, 0, [])
    else if i == 1 then Table(S6CardRevealFirst, players, None, 0, [Card(a)])
    else if i == 2 then Table(S8BetDecision, players, Some(0), 0, [Card(a), Card(b)])
    else if i == 3 then Table(S9CardRevealThird, players, Some(0), bet, [Card(a), Card(b)])
    else Table(S10SettledRound, players, Some(0), bet, [Card(a), Card(b), Card(c)])
  }

  lemma PlayStep(impl: Impl, rs: RuleSet, players: seq<PlayerState>, bet: nat, a: int, b: int, c: int, i: nat)
    requires i < 4 && players != [] && players[0].seat == 0 && rs.minBet <= bet <= rs.maxBet && bet <= MAX_SAFE
    ensures var e := PlayLog(bet, a, b, c)[i];
            Apply(impl, PlayState(players, bet, a, b, c, i), e.action, rs, e.height)
              == Ok(PlayState(players, bet, a, b, c, i + 1))
  {
    if i == 0 {
      ShowFirst(impl, rs, players, a);
    } else if i == 1 {
      ShowSecond(impl, rs, players, a, b);
    } else if i == 2 {
      PlaceBet(impl, rs, players, 0, [Card(a), Card(b)], bet);
    } else {
      ShowThird(impl, rs, players, 0, bet, a, b, c);
    }
  }

  /** A bare run of one player up to the settlement. */
  lemma SoloRun(impl: Impl, rs: RuleSet, key: bytes, bet: nat, a: int, b: int, c: int) returns (st: RoundState)
    requires rs.playerCountMin <= 1 <= rs.playerCountMax && rs.minBet <= bet <= rs.maxBet && bet <= MAX_SAFE
    ensures Run(impl, Start(), rs, OpeningLog(key, rs.stakeAmount, [], []) + PlayLog(bet, a, b, c)) == Ok(st)
    ensures st == Table(S10SettledRound, [Solo(key, rs.stakeAmount, [], [])], Some(0), bet, [Card(a), Card(b), Card(c)])
  {
    var players, play := [Solo(key, rs.stakeAmount, [], [])], PlayLog(bet, a, b, c);
    var states := seq(5, i requires 0 <= i < 5 => PlayState(players, bet, a, b, c, i));
    SoloOpening(impl, rs, key);
    forall i | 0 <= i < 4
      ensures Apply(impl, states[i], play[i].action, rs, play[i].height) == Ok(states[i + 1])
    {
      PlayStep(impl, rs, players, bet, a, b, c, i);
    }
    RunAlong(impl, rs, OpeningLog(key, rs.stakeAmount, [], []), play, states);
    st := states[4];
  }

  lemma SoloOpening(impl: Impl, rs: RuleSet, key: bytes)
    requires rs.playerCountMin <= 1 <= rs.playerCountMax
    ensures Run(impl, Start(), rs, OpeningLog(key, rs.stakeAmount, [], []))
         == Ok(Table(S5DeckCommitted, [Solo(key, rs.stakeAmount, [], [])], None, 0, []))
  {
    var p := Joiner(0, key, rs.stakeAmount);
    var log := OpeningLog(key, rs.stakeAmount, [], []);
    OpeningSteps(impl, rs, key, [], []);
    RunAlong(impl, rs, [], log,
             [Start(), Table(S1SeatOpen, [p], None, 0, []), Table(S3EntropyCommit, [p], None, 0, []),
              Table(S4EntropyReveal, [WithCommitment(p, [])], None, 0, []),
              Table(S5DeckCommitted, [Solo(key, rs.stakeAmount, [], [])], None, 0, [])]);
    assert [] + log == log;
  }

  /** A stake of 1, a lost bet of 5: the preview shows 10 where the table holds 6, and the settlement is refused. */
  lemma PreviewClamps(impl: Impl, key: bytes) returns (st: RoundState)
    ensures Run(impl, Start(), SoloRules(1, 5), OpeningLog(key, 1, [], []) + PlayLog(5, 0, 5, 9)) == Ok(st)
    ensures var preview := ComputeSettlement(GoRelay, st, SoloRules(1, 5));
            preview.Ok? && preview.value.pot + Sum(preview.value.balances) > TableMoney(st)
    ensures ApplySettle(GoRelay, st, SoloRules(1, 5)).Err?
  {
    var rs := SoloRules(1, 5);
    st := SoloRun(impl, rs, key, 5, 0, 5, 9);
    RunKeeps(impl, Start(), rs, OpeningLog(key, 1, [], []) + PlayLog(5, 0, 5, 9));
    GoPreviewAddsUp(st, rs);
    assert Classify(st.visibleCards) == Loss;
    assert st.players[0].stakeAtRisk == 1;
    assert !CanPay(st, rs);
  }

  // ----- a stamped session -----

  function ZeroHash(): Hash { (b: bytes) => Zeros(32) }

  lemma ZeroStream(seed: bytes, k: nat)
    ensures StreamOf(ZeroHash(), seed)(k) == 0
  {
  }

  lemma ZeroWord(seed: bytes, pos: nat)
    ensures WordsOf(StreamOf(ZeroHash(), seed))(pos) == 0
  {
    ZeroStream(seed, pos);
    ZeroStream(seed, pos + 1);
    ZeroStream(seed, pos + 2);
    ZeroStream(seed, pos + 3);
  }

  lemma DrawsZero(words: Words, pos: nat, i: nat)
    requires words(pos) == 0 && pos + 4 <= STREAM_END && 0 < i < 54
    ensures Draw(words, pos, i) == Some((0, pos + 4))
  {
    SmallModulus(i + 1);
    assert FirstBelow(words, pos, Limit(i + 1)) == Some((0, pos + 4));
  }

  lemma SmallModulus(bound: nat)
    requires 0 < bound < U32
    ensures Limit(bound) > 0
  {
  }

  lemma {:induction false} DrawsExist(draw: Drawer, pos: nat, i: nat)
    requires forall p: nat, k: nat {:trigger draw(p, k)} ::
               0 < k < 54 && p + 4 <= STREAM_END ==> draw(p, k) == Some((0, p + 4))
    requires pos + 4 * i <= STREAM_END && i < 54
    ensures Draws(draw, pos, i).Some?
    decreases i
  {
    if i > 0 {
      DrawsExist(draw, pos + 4, i - 1);
    }
  }

  /** With this hash every seed shuffles. */
  lemma ZeroDraws(seed: bytes)
    ensures Draws(DrawerOf(ZeroHash(), seed), 0, 51).Some?
  {
    forall p: nat, k: nat | 0 < k < 54 && p + 4 <= STREAM_END
      ensures DrawerOf(ZeroHash(), seed)(p, k) == Some((0, p + 4))
    {
      ZeroWord(seed, p);
      DrawsZero(WordsOf(StreamOf(ZeroHash(), seed)), p, k);
    }
    DrawsExist(DrawerOf(ZeroHash(), seed), 0, 51);
  }

  lemma GateExtend(impl: Impl, h: Hash, rs: RuleSet, log: seq<Entry>, e: Entry, s: RoundState, s': RoundState)
    requires GateRun(impl, h, Start(), rs, log) == Ok(s) && GateStep(impl, h, s, e.action, rs, e.height) == Ok(s')
    ensures GateRun(impl, h, Start(), rs, log + [e]) == Ok(s')
  {
    GateRunSnoc(impl, h, Start(), rs, log, e);
  }

  /** The first three opening actions pass the gate unchanged. */
  lemma GatedCommit(impl: Impl, h: Hash, rs: RuleSet, key: bytes, c: bytes, spelling: Spelling)
    requires rs.playerCountMin <= 1 <= rs.playerCountMax && |c| == 32 && Reads(impl, spelling)
    ensures GateRun(impl, h, Start(), rs,
                    [Entered(0, Join(key, rs.stakeAmount)), Entered(0, TableLock),
                     Entered(0, EntropyCommit(c, spelling))])
         == Ok(Table(S4EntropyReveal, [WithCommitment(Joiner(0, key, rs.stakeAmount), c)], None, 0, []))
  {
    var p := Joiner(0, key, rs.stakeAmount);
    var s1, s3 := Table(S1SeatOpen, [p], None, 0, []), Table(S3EntropyCommit, [p], None, 0, []);
    var s4 := Table(S4EntropyReveal, [WithCommitment(p, c)], None, 0, []);
    var join, lock := Entered(0, Join(key, rs.stakeAmount)), Entered(0, TableLock);
    var commit := Entered(0, EntropyCommit(c, spelling));
    FirstJoin(impl, rs, 0, key);
    Lock(impl, rs, [p]);
    assert FindSeat([p], 0) == 0 by { assert SeatsOf([p])[0] == 0; }
    Commit(impl, rs, [p], 0, c, spelling);
    assert [p][0 := WithCommitment(p, c)] == [WithCommitment(p, c)];
    GateExtend(impl, h, rs, [], join, Start(), s1);
    GateExtend(impl, h, rs, [join], lock, s1, s3);
    GateExtend(impl, h, rs, [join, lock], commit, s3, s4);
    assert [] + [join] == [join] && [join] + [lock] == [join, lock] && [join, lock] + [commit] == [join, lock, commit];
  }

  /** The reveal that opens the commitment stamps the deck. */
  lemma GatedReveal(impl: Impl, h: Hash, rs: RuleSet, key: bytes, e: bytes)
    requires |key| >= 32 && |e| == 32
    requires DeckOf(h, CombineEntropy(h, [e]), rs.deckFormat, rs.shuffleVersion).Some?
    ensures var c := CommitEntropy(h, e, Tail32(key), GAME);
            var s4 := Table(S4EntropyReveal, [WithCommitment(Joiner(0, key, rs.stakeAmount), c)], None, 0, []);
            var r := GateStep(impl, h, s4, Entered(0, EntropyReveal(e, LowerCase)).action, rs, 0);
            r.Ok? && r.value.combinedEntropy == Some(CombineEntropy(h, [e]))
  {
    var c := CommitEntropy(h, e, Tail32(key), GAME);
    var q := WithCommitment(Joiner(0, key, rs.stakeAmount), c);
    var p := WithEntropy(q, e);
    var s5 := Table(S5DeckCommitted, [p], None, 0, []);
    assert FindSeat([q], 0) == 0 by { assert SeatsOf([q])[0] == 0; }
    Reveal(impl, rs, [q], 0, e, LowerCase);
    assert [q][0 := p] == [p];
    OnlyPlayer(p);
    PresentMaterialises(impl, h, s5, rs);
    assert Entropies([p]) == [e];
  }

  lemma OnlyPlayer(p: PlayerState)
    ensures Sort(PlayerLE, [p]) == [p]
  {
    assert [p][..0] == [] && Sort(PlayerLE, [p][..0]) == [];
  }

  /** A relay session whose live state holds an entropy that its own bare replay does not reproduce. */
  lemma ReplayMissesTheDeck(impl: Impl, key: bytes) returns (h: Hash, log: seq<Entry>)
    requires |key| == 33
    ensures GateRun(impl, h, Start(), SoloRules(0, 0), log).Ok?
    ensures GateRun(impl, h, Start(), SoloRules(0, 0), log).value.combinedEntropy.Some?
    ensures Run(impl, Start(), SoloRules(0, 0), log) != GateRun(impl, h, Start(), SoloRules(0, 0), log)
  {
    h := ZeroHash();
    var rs, e := SoloRules(0, 0), Zeros(32);
    ZeroDraws(CombineEntropy(h, [e]));
    var c := CommitEntropy(h, e, Tail32(key), GAME);
    var opening := [Entered(0, Join(key, 0)), Entered(0, TableLock), Entered(0, EntropyCommit(c, LowerCase))];
    var shown := Entered(0, EntropyReveal(e, LowerCase));
    GatedCommit(impl, h, rs, key, c, LowerCase);
    GatedReveal(impl, h, rs, key, e);
    var s4 := Table(S4EntropyReveal, [WithCommitment(Joiner(0, key, 0), c)], None, 0, []);
    log := opening + [shown];
    GateExtend(impl, h, rs, opening, shown, s4, GateStep(impl, h, s4, shown.action, rs, 0).value);
    ReplayIsExactBeforeTheDeck(impl, h, GAME, GAME, 0, rs, log);
  }

  // ----- transcripts that only the relay accepts -----

  /** A join at seat -1: the relay takes it, the number leaves TypeScript's range. */
  lemma NegativeSeatDoesNotConform(h: Hash, key: bytes)
    ensures var log := [Entered(-1, Join(key, 0))];
            GateRun(GoRelay, h, Start(), SoloRules(0, 0), log).Ok? && LowerCaseThroughout(log) &&
            !SafeThroughout(h, Start(), SoloRules(0, 0), log) &&
            GateRun(TypeScript, h, Start(), SoloRules(0, 0), log).Err?
  {
    var rs, join := SoloRules(0, 0), Entered(-1, Join(key, 0));
    var s1 := Table(S1SeatOpen, [Joiner(-1, key, 0)], None, 0, []);
    FirstJoin(GoRelay, rs, -1, key);
    GateExtend(GoRelay, h, rs, [], join, Start(), s1);
    assert [] + [join] == [join] && [join][1..] == [];
    assert s1.players[0].seat == -1 && !SafeState(s1);
    UnsafeStop(h, s1, rs, [join][1..]);
    RelayTranscriptsConform(h, Start(), rs, [join]);
  }

  /** A commitment in upper-case hexadecimal: every number is safe, and only the relay accepts it. */
  lemma UpperCaseDoesNotConform(h: Hash, key: bytes, c: bytes)
    requires |c| == 32
    ensures var log := [Entered(0, Join(key, 0)), Entered(0, TableLock), Entered(0, EntropyCommit(c, UpperCase))];
            GateRun(GoRelay, h, Start(), SoloRules(0, 0), log).Ok? && !LowerCaseThroughout(log) &&
            SafeState(GateRun(GoRelay, h, Start(), SoloRules(0, 0), log).value) &&
            GateRun(TypeScript, h, Start(), SoloRules(0, 0), log).Err?
  {
    var rs := SoloRules(0, 0);
    var log := [Entered(0, Join(key, 0)), Entered(0, TableLock), Entered(0, EntropyCommit(c, UpperCase))];
    GatedCommit(GoRelay, h, rs, key, c, UpperCase);
    assert log[2] in log && !ReadBy(TypeScript, log[2].action.body);
    RelayTranscriptsConform(h, Start(), rs, log);
  }

  // ----- a recovery at open seats -----

  /** Before anyone is seated a mature recovery already ends the table. */
  lemma OpenTableRecovers(impl: Impl, rs: RuleSet, deadline: int)
    ensures var log := [Entry(Signed(0, Recovery), deadline)];
            Run(impl, InitialState(GAME, GAME, deadline), rs, log).Ok? &&
            Run(impl, InitialState(GAME, GAME, deadline), rs, log).value.stateClass == Recovered
  {
    var e := Entry(Signed(0, Recovery), deadline);
    RecoveryIsExact(impl, GAME, GAME, deadline, rs, [], e.action, deadline);
    RunOne(impl, InitialState(GAME, GAME, deadline), rs, e);
  }

  // ----- a seat that never acts -----

  function DuoRules(): RuleSet { SoloRules(0, 0).(playerCountMin := 2, playerCountMax := 2) }

  function Half(seat: int, committed: bool, shown: bool): PlayerState {
    var p := Joiner(seat, [], 0);
    var q := if committed then WithCommitment(p, []) else p;
    if shown then WithEntropy(q, []) else q
  }

  function Duo(c1: bool, c0: bool, e1: bool, e0: bool): seq<PlayerState> {
    [Half(1, c1, e1), Half(0, c0, e0)]
  }

  lemma DuoSeats(c1: bool, c0: bool, e1: bool, e0: bool)
    ensures var players := Duo(c1, c0, e1, e0);
            SeatsOf(players) == [1, 0] && FindSeat(players, 1) == 0 && FindSeat(players, 0) == 1 &&
            SortedSeats(players) == [0, 1] && Rank(players, 1) == 1
  {
    var players := Duo(c1, c0, e1, e0);
    assert SeatsOf(players) == [1, 0];
    assert [1, 0][1..] == [0];
    SortedSeatsFacts(players);
    var s := SortedSeats(players);
    assert s[0] in [1, 0] && s[1] in [1, 0] && s[0] < s[1];
    assert s == [0, 1] && [0, 1][1..] == [1];
  }

  /** The first or the second commitment at this table. */
  lemma DuoCommits(impl: Impl, second: bool)
    ensures Apply(impl, Table(S3EntropyCommit, Duo(second, false, false, false), None, 0, []),
                  Entered(if second then 0 else 1, EntropyCommit([], LowerCase)).action, DuoRules(), 0)
         == Ok(Table(if second then S4EntropyReveal else S3EntropyCommit, Duo(true, second, false, false), None, 0, []))
  {
    var players, next := Duo(second, false, false, false), Duo(true, second, false, false);
    var i := if second then 1 else 0;
    DuoSeats(second, false, false, false);
    Commit(impl, DuoRules(), players, i, [], LowerCase);
    assert players[i := WithCommitment(players[i], [])] == next;
    assert next[1].entropyCommitted == second;
  }

  lemma DuoReveals(impl: Impl, second: bool)
    ensures Apply(impl, Table(S4EntropyReveal, Duo(true, true, second, false), None, 0, []),
                  Entered(if second then 0 else 1, EntropyReveal([], LowerCase)).action, DuoRules(), 0)
         == Ok(Table(if second then S5DeckCommitted else S4EntropyReveal, Duo(true, true, true, second), None, 0, []))
  {
    var players, next := Duo(true, true, second, false), Duo(true, true, true, second);
    var i := if second then 1 else 0;
    DuoSeats(true, true, second, false);
    Reveal(impl, DuoRules(), players, i, [], LowerCase);
    assert players[i := WithEntropy(players[i], [])] == next;
    assert next[1].entropyRevealed == second;
  }

  function DuoLog(): seq<Entry> {
    [Entered(1, Join([], 0)), Entered(0, Join([], 0)), Entered(0, TableLock),
     Entered(1, EntropyCommit([], LowerCase)), Entered(0, EntropyCommit([], LowerCase)),
     Entered(1, EntropyReveal([], LowerCase)), Entered(0, EntropyReveal([], LowerCase)),
     Entered(0, ShowCard(0)), Entered(0, ShowCard(0)), Entered(1, Pass), Entered(1, RotateTurn)]
  }

  /** The states between these actions. */
  function DuoState(i: nat): RoundState {
    var players := Duo(true, true, true, true);
    if i == 0 then Start()
    else if i == 1 then Table(S1SeatOpen, [Half(1, false, false)], None, 0, [])
    else if i == 2 then Table(S1SeatOpen, Duo(false, false, false, false), None, 0, [])
    else if i == 3 then Table(S3EntropyCommit, Duo(false, false, false, false), None, 0, [])
    else if i == 4 then Table(S3EntropyCommit, Duo(true, false, false, false), None, 0, [])
    else if i == 5 then Table(S4EntropyReveal, Duo(true, true, false, false), None, 0, [])
    else if i == 6 then Table(S4EntropyReveal, Duo(true, true, true, false), None, 0, [])
    else if i == 7 then Table(S5DeckCommitted, players, None, 0, [])
    else if i == 8 then Table(S6CardRevealFirst, players, None, 0, [Card(0)])
    else if i == 9 then Table(S8BetDecision, players, Some(1), 0, [Card(0), Card(0)])
    else if i == 10 then Table(S11RotateTurn, players, Some(1), 0, [Card(0), Card(0)])
    else Advance(Table(S11RotateTurn, players, Some(1), 0, [Card(0), Card(0)]), S12TableClose)
  }

  ghost predicate DuoFollows(impl: Impl, i: nat)
    requires i < 11
  {
    Apply(impl, DuoState(i), DuoLog()[i].action, DuoRules(), DuoLog()[i].height) == Ok(DuoState(i + 1))
  }

  lemma DuoOpens(impl: Impl)
    ensures DuoFollows(impl, 0) && DuoFollows(impl, 1) && DuoFollows(impl, 2)
  {
    FirstJoin(impl, DuoRules(), 1, []);
    NextJoin(impl, DuoRules(), [Half(1, false, false)], 0, []);
    assert [Half(1, false, false)] + [Half(0, false, false)] == Duo(false, false, false, false);
    Lock(impl, DuoRules(), Duo(false, false, false, false));
  }

  lemma DuoStep(impl: Impl, i: nat)
    requires i < 11
    ensures DuoFollows(impl, i)
  {
    var players := Duo(true, true, true, true);
    if i < 3 {
      DuoOpens(impl);
    } else if i < 5 {
      DuoCommits(impl, i == 4);
    } else if i < 7 {
      DuoReveals(impl, i == 6);
    } else if i == 7 {
      ShowFirst(impl, DuoRules(), players, 0);
    } else if i == 8 {
      ShowSecond(impl, DuoRules(), players, 0, 0);
    } else if i == 9 {
      PassOn(impl, DuoRules(), players, 1, [Card(0), Card(0)]);
    } else {
      DuoRotates(impl);
    }
  }

  lemma LastSeatCloses(impl: Impl, st: RoundState, a: SignedAction, rs: RuleSet)
    requires st.stateClass == S11RotateTurn && SortedSeats(st.players) == [0, 1] && st.actingSeat == Some(1)
    requires a.gameId == st.gameId && a.body == RotateTurn
    ensures Apply(impl, st, a, rs, 0) == Ok(Advance(st, S12TableClose))
  {
    assert NextSeat([0, 1], 1) == 0;
  }

  lemma DuoRotates(impl: Impl)
    ensures DuoFollows(impl, 10)
  {
    DuoSeats(true, true, true, true);
    LastSeatCloses(impl, DuoState(10), Entered(1, RotateTurn).action, DuoRules());
  }

  lemma DuoEnds()
    ensures var st := DuoState(11);
            st.stateClass == S12TableClose && st.players == Duo(true, true, true, true) && st.actingSeat == Some(1)
  {
  }

  lemma DuoCloses(impl: Impl) returns (st: RoundState)
    ensures Run(impl, Start(), DuoRules(), DuoLog()) == Ok(st)
    ensures st.stateClass == S12TableClose && st.players == Duo(true, true, true, true) && st.actingSeat == Some(1)
  {
    var log, states := DuoLog(), seq(12, i requires 0 <= i < 12 => DuoState(i));
    forall i | 0 <= i < 11
      ensures Apply(impl, states[i], log[i].action, DuoRules(), log[i].height) == Ok(states[i + 1])
    {
      DuoStep(impl, i);
    }
    assert Run(impl, Start(), DuoRules(), []) == Ok(states[0]);
    RunAlong(impl, DuoRules(), [], log, states);
    assert [] + log == log;
    st := states[11];
    DuoEnds();
  }

  /** Seat 1 joins first: it acts alone, and the table closes although seat 0 never had a round. */
  lemma LowerSeatIsSkipped(impl: Impl) returns (st: RoundState)
    ensures Run(impl, Start(), DuoRules(), DuoLog()) == Ok(st)
    ensures st.stateClass == S12TableClose && 0 in SeatsOf(st.players)
    ensures Actors(impl, Start(), DuoRules(), DuoLog()) == [1]
  {
    st := DuoCloses(impl);
    RoundsRotate(impl, GAME, GAME, 0, DuoRules(), DuoLog());
    SkippedActors(st, Actors(impl, Start(), DuoRules(), DuoLog()));
  }

  lemma SkippedActors(st: RoundState, actors: seq<int>)
    requires st.players == Duo(true, true, true, true) && st.actingSeat == Some(1) && st.stateClass == S12TableClose
    requires RoundsTaken(st, actors)
    ensures actors == [1] && 0 in SeatsOf(st.players)
  {
    DuoSeats(true, true, true, true);
    assert SeatsOf(st.players)[1] == 0;
    assert [0, 1][1..] == [1];
  }
}
