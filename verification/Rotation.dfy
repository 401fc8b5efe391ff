/** Which seats act, in which order, and when the table closes. */
module Rotation {
  import opened Wrappers
  import opened Bytes
  import opened Protocol
  import opened Sequences
  import opened Engine
  import opened Replay
  import opened Invariants

  /** The acting seats of a run in the order they were set: one for every round opened. */
  function Actors(impl: Impl, st: RoundState, rs: RuleSet, log: seq<Entry>): seq<int>
    decreases |log|
  {
    if log == [] then []
    else
      var r := Apply(impl, st, log[0].action, rs, log[0].height);
      if r.Err? then []
      else
        NewActor(st, r.value) + Actors(impl, r.value, rs, log[1..])
  }

  function NewActor(st: RoundState, st': RoundState): seq<int> {
    if st'.actingSeat != st.actingSeat && st'.actingSeat.Some? then [st'.actingSeat.value] else []
  }

  /** The rank the next seat to be set must have. */
  function NextRank(st: RoundState): int {
    if st.players == [] then 0
    else if st.actingSeat.None? then Rank(st.players, st.players[0].seat)
    else Rank(st.players, st.actingSeat.value) + 1
  }

  lemma FirstSeatRank(players: seq<PlayerState>)
    requires players != [] && Distinct(SeatsOf(players))
    ensures var s := SortedSeats(players);
            0 <= Rank(players, players[0].seat) < |s| && s[Rank(players, players[0].seat)] == players[0].seat
  {
    SortedSeatsFacts(players);
    assert players[0].seat == SeatsOf(players)[0];
  }

  lemma SeatsFixedByEntropy(impl: Impl, st: RoundState, a: SignedAction, rs: RuleSet, height: int)
    requires (a.body.EntropyCommit? || a.body.EntropyReveal?) && Apply(impl, st, a, rs, height).Ok?
    ensures SeatsOf(Apply(impl, st, a, rs, height).value.players) == SeatsOf(st.players)
  {
    var st' := Apply(impl, st, a, rs, height).value;
    var i := FindSeat(st.players, a.seat.value);
    SameSeats(st.players, i, st'.players[i]);
  }

  lemma SeatsFixedByPay(impl: Impl, st: RoundState, rs: RuleSet)
    requires ApplySettle(impl, st, rs).Ok?
    ensures SeatsOf(ApplySettle(impl, st, rs).value.players) == SeatsOf(st.players)
  {
    assert SeatsOf(ApplySettle(impl, st, rs).value.players) == SeatsOf(st.players);
  }

  lemma SeatsFixedByFold(impl: Impl, st: RoundState, seat: Option<int>)
    requires ApplyFold(impl, st, seat).Ok?
    ensures SeatsOf(ApplyFold(impl, st, seat).value.players) == SeatsOf(st.players)
  {
    var st' := ApplyFold(impl, st, seat).value;
    var i := FindSeat(st.players, seat.value);
    SameSeats(st.players, i, st'.players[i]);
  }

  /** Once seats are locked no action changes them. */
  lemma SeatsFixed(impl: Impl, st: RoundState, a: SignedAction, rs: RuleSet, height: int)
    requires st.stateClass != S1SeatOpen && Apply(impl, st, a, rs, height).Ok?
    ensures SeatsOf(Apply(impl, st, a, rs, height).value.players) == SeatsOf(st.players)
  {
    match a.body
    case EntropyCommit(_, _) => SeatsFixedByEntropy(impl, st, a, rs, height);
    case EntropyReveal(_, _) => SeatsFixedByEntropy(impl, st, a, rs, height);
    case Fold => SeatsFixedByFold(impl, st, a.seat);
    case Settle => SeatsFixedByPay(impl, st, rs);
    case _ =>
  }

  /** A step sets either no seat, or exactly the seat of the next rank. */
  ghost predicate SetsNext(st: RoundState, st': RoundState) {
    var seats := SortedSeats(st.players);
    SeatsOf(st'.players) == SeatsOf(st.players) && SortedSeats(st'.players) == seats &&
    st'.stateClass != S1SeatOpen &&
    (NewActor(st, st') == [] ==> st'.actingSeat == st.actingSeat && NextRank(st') == NextRank(st)) &&
    (NewActor(st, st') != [] ==>
      0 <= NextRank(st) < |seats| && NewActor(st, st') == [seats[NextRank(st)]] && NextRank(st') == NextRank(st) + 1)
  }

  lemma OtherActor(impl: Impl, st: RoundState, a: SignedAction, rs: RuleSet, height: int)
    requires WellFormed(rs, st) && st.stateClass != S1SeatOpen && Apply(impl, st, a, rs, height).Ok?
    requires a.body != RotateTurn && !(a.body.CardReveal? && st.stateClass == S6CardRevealFirst)
    ensures var st' := Apply(impl, st, a, rs, height).value;
            st'.actingSeat == st.actingSeat && st'.stateClass != S1SeatOpen
  {
    if a.body.EntropyCommit? || a.body.EntropyReveal? || a.body == Fold || a.body == Settle {
      UpdateActor(impl, st, a, rs, height);
    }
  }

  lemma UpdateActor(impl: Impl, st: RoundState, a: SignedAction, rs: RuleSet, height: int)
    requires a.body.EntropyCommit? || a.body.EntropyReveal? || a.body == Fold || a.body == Settle
    requires Apply(impl, st, a, rs, height).Ok?
    ensures var st' := Apply(impl, st, a, rs, height).value;
            st'.actingSeat == st.actingSeat && st'.stateClass != S1SeatOpen
  {
  }

  lemma RotateSetsNext(impl: Impl, st: RoundState, rs: RuleSet)
    requires WellFormed(rs, st) && ApplyRotateTurn(impl, st).Ok?
    ensures SetsNext(st, ApplyRotateTurn(impl, st).value)
  {
    RotateStep(impl, st);
    RotateSetsSeat(st, ApplyRotateTurn(impl, st).value, SortedSeats(st.players), Rank(st.players, st.actingSeat.value));
  }

  lemma RotateSetsSeat(st: RoundState, st': RoundState, seats: seq<int>, i: nat)
    requires st'.players == st.players != [] && seats == SortedSeats(st.players) && i < |seats|
    requires st.actingSeat.Some? && i == Rank(st.players, st.actingSeat.value)
    requires st'.stateClass == S12TableClose <==> i == |seats| - 1
    requires i == |seats| - 1 ==> st'.actingSeat == st.actingSeat
    requires i < |seats| - 1 ==>
      st'.stateClass == S6CardRevealFirst && st'.actingSeat == Some(seats[i + 1]) &&
      seats[i + 1] > st.actingSeat.value && Rank(st.players, seats[i + 1]) == i + 1
    ensures SetsNext(st, st')
  {
  }

  lemma FirstSeatSetsNext(st: RoundState, card: RevealedCard, rs: RuleSet)
    requires WellFormed(rs, st) && st.stateClass == S6CardRevealFirst && ApplyCardReveal(st, card).Ok?
    ensures SetsNext(st, ApplyCardReveal(st, card).value)
  {
    FirstSeatRank(st.players);
  }

  lemma StepActor(impl: Impl, st: RoundState, a: SignedAction, rs: RuleSet, height: int)
    requires WellFormed(rs, st) && st.stateClass != S1SeatOpen && Apply(impl, st, a, rs, height).Ok?
    ensures SetsNext(st, Apply(impl, st, a, rs, height).value)
  {
    if a.body == RotateTurn {
      RotateSetsNext(impl, st, rs);
    } else if st.stateClass == S6CardRevealFirst && a.body.CardReveal? {
      FirstSeatSetsNext(st, a.body.proof.revealedCard, rs);
    } else {
      OtherActor(impl, st, a, rs, height);
      SeatsFixed(impl, st, a, rs, height);
      SameNextRank(st, Apply(impl, st, a, rs, height).value);
    }
  }

  lemma SameNextRank(st: RoundState, st': RoundState)
    requires SeatsOf(st'.players) == SeatsOf(st.players) && st'.actingSeat == st.actingSeat
    ensures NextRank(st') == NextRank(st) && SortedSeats(st'.players) == SortedSeats(st.players)
  {
    if st.players != [] {
      assert st'.players[0].seat == SeatsOf(st'.players)[0] && st.players[0].seat == SeatsOf(st.players)[0];
    }
  }

  /** The acting seats of a run are the seats of consecutive ranks, without gap or repetition. */
  ghost predicate Consecutive(actors: seq<int>, seats: seq<int>, from: int) {
    actors != [] ==> 0 <= from && from + |actors| <= |seats| && actors == seats[from..from + |actors|]
  }

  lemma ConsecutiveExtend(actors: seq<int>, seats: seq<int>, from: int)
    requires 0 <= from < |seats| && Consecutive(actors, seats, from + 1)
    ensures Consecutive([seats[from]] + actors, seats, from)
  {
  }

  lemma FirstStep(impl: Impl, st: RoundState, rs: RuleSet, log: seq<Entry>) returns (st1: RoundState)
    requires WellFormed(rs, st) && st.stateClass != S1SeatOpen && Run(impl, st, rs, log).Ok? && log != []
    ensures WellFormed(rs, st1) && SetsNext(st, st1) && Run(impl, st, rs, log) == Run(impl, st1, rs, log[1..])
    ensures Actors(impl, st, rs, log) == NewActor(st, st1) + Actors(impl, st1, rs, log[1..])
  {
    var a, height := log[0].action, log[0].height;
    st1 := Apply(impl, st, a, rs, height).value;
    StepKeeps(impl, st, a, rs, height);
    StepActor(impl, st, a, rs, height);
  }

  /** A step that sets the next seat goes in front of a run that continues from there. */
  lemma PrependStep(st: RoundState, st1: RoundState, st': RoundState, actors: seq<int>)
    requires SetsNext(st, st1)
    requires SeatsOf(st'.players) == SeatsOf(st1.players) && NextRank(st') == NextRank(st1) + |actors|
    requires Consecutive(actors, SortedSeats(st1.players), NextRank(st1))
    ensures var all := NewActor(st, st1) + actors;
            SeatsOf(st'.players) == SeatsOf(st.players) && NextRank(st') == NextRank(st) + |all| &&
            Consecutive(all, SortedSeats(st.players), NextRank(st))
  {
    if NewActor(st, st1) == [] {
      assert NewActor(st, st1) + actors == actors;
    } else {
      ConsecutiveExtend(actors, SortedSeats(st.players), NextRank(st));
    }
  }

  lemma {:induction false} ActorsAreConsecutive(impl: Impl, st: RoundState, rs: RuleSet, log: seq<Entry>)
    requires WellFormed(rs, st) && st.stateClass != S1SeatOpen && Run(impl, st, rs, log).Ok?
    ensures var st' := Run(impl, st, rs, log).value;
            var actors := Actors(impl, st, rs, log);
            SeatsOf(st'.players) == SeatsOf(st.players) && NextRank(st') == NextRank(st) + |actors| &&
            Consecutive(actors, SortedSeats(st.players), NextRank(st))
    decreases |log|
  {
    if log != [] {
      var st1 := FirstStep(impl, st, rs, log);
      ActorsAreConsecutive(impl, st1, rs, log[1..]);
      PrependStep(st, st1, Run(impl, st1, rs, log[1..]).value, Actors(impl, st1, rs, log[1..]));
    }
  }

  /** While seats are open nobody acts. */
  lemma OpenStep(impl: Impl, st: RoundState, a: SignedAction, rs: RuleSet, height: int)
    requires WellFormed(rs, st) && st.stateClass == S1SeatOpen && Apply(impl, st, a, rs, height).Ok?
    ensures Apply(impl, st, a, rs, height).value.actingSeat.None?
  {
  }

  /** The rounds so far went to the ranks from the first joiner's up to the acting seat's. */
  ghost predicate Rotated(st: RoundState, actors: seq<int>) {
    if st.actingSeat.None? then actors == []
    else
      st.players != [] &&
      |actors| == Rank(st.players, st.actingSeat.value) + 1 - Rank(st.players, st.players[0].seat) &&
      Consecutive(actors, SortedSeats(st.players), Rank(st.players, st.players[0].seat))
  }

  lemma FirstOpenStep(impl: Impl, st: RoundState, rs: RuleSet, log: seq<Entry>) returns (st1: RoundState)
    requires WellFormed(rs, st) && st.stateClass == S1SeatOpen && Run(impl, st, rs, log).Ok? && log != []
    ensures WellFormed(rs, st1) && st1.actingSeat.None? && Run(impl, st, rs, log) == Run(impl, st1, rs, log[1..])
    ensures Actors(impl, st, rs, log) == Actors(impl, st1, rs, log[1..])
  {
    var a, height := log[0].action, log[0].height;
    st1 := Apply(impl, st, a, rs, height).value;
    StepKeeps(impl, st, a, rs, height);
    OpenStep(impl, st, a, rs, height);
    assert NewActor(st, st1) == [];
  }

  lemma {:induction false} ActorsFromOpen(impl: Impl, st: RoundState, rs: RuleSet, log: seq<Entry>)
    requires WellFormed(rs, st) && st.stateClass == S1SeatOpen && Run(impl, st, rs, log).Ok?
    ensures Rotated(Run(impl, st, rs, log).value, Actors(impl, st, rs, log))
    decreases |log|
  {
    if log != [] {
      var st1 := FirstOpenStep(impl, st, rs, log);
      if st1.stateClass == S1SeatOpen {
        ActorsFromOpen(impl, st1, rs, log[1..]);
      } else {
        ActorsFromLocked(impl, st1, rs, log[1..]);
      }
    }
  }

  lemma ActorsFromLocked(impl: Impl, st: RoundState, rs: RuleSet, log: seq<Entry>)
    requires WellFormed(rs, st) && st.stateClass != S1SeatOpen && st.actingSeat.None? && Run(impl, st, rs, log).Ok?
    ensures Rotated(Run(impl, st, rs, log).value, Actors(impl, st, rs, log))
  {
    RunKeeps(impl, st, rs, log);
    ActorsAreConsecutive(impl, st, rs, log);
    NoActorsYet(impl, st, rs, log);
    RotatedIf(rs, st, Run(impl, st, rs, log).value, Actors(impl, st, rs, log));
  }

  lemma RotatedIf(rs: RuleSet, st: RoundState, st': RoundState, actors: seq<int>)
    requires WellFormed(rs, st') && st.actingSeat.None? && (st'.actingSeat.None? ==> actors == [])
    requires SeatsOf(st'.players) == SeatsOf(st.players) && NextRank(st') == NextRank(st) + |actors|
    requires Consecutive(actors, SortedSeats(st.players), NextRank(st))
    ensures Rotated(st', actors)
  {
    if st'.actingSeat.Some? {
      assert |SeatsOf(st.players)| == |SeatsOf(st'.players)|;
      assert st'.players[0].seat == SeatsOf(st'.players)[0] && st.players[0].seat == SeatsOf(st.players)[0];
    }
  }

  /** The acting seat is never cleared, so it is empty only if no seat was ever set. */
  lemma {:induction false} NoActorsYet(impl: Impl, st: RoundState, rs: RuleSet, log: seq<Entry>)
    requires WellFormed(rs, st) && st.stateClass != S1SeatOpen && Run(impl, st, rs, log).Ok?
    ensures Run(impl, st, rs, log).value.actingSeat.None? ==> Actors(impl, st, rs, log) == [] && st.actingSeat.None?
    decreases |log|
  {
    if log != [] {
      var st1 := FirstStep(impl, st, rs, log);
      NoActorsYet(impl, st1, rs, log[1..]);
    }
  }

  /** Who has acted in state st, told by the sorted seats alone. */
  ghost predicate RoundsTaken(st: RoundState, actors: seq<int>) {
    var seats := SortedSeats(st.players);
    Increasing(actors) &&
    (st.actingSeat.None? ==> actors == []) &&
    (st.actingSeat.Some? ==>
      st.players != [] &&
      var first := Rank(st.players, st.players[0].seat);
      0 <= first < first + |actors| <= |seats| && actors == seats[first..first + |actors|] &&
      actors[|actors| - 1] == st.actingSeat.value && |actors| == st.roundNumber + 1 &&
      (st.stateClass == S12TableClose ==> actors == seats[first..] && (actors == seats <==> first == 0)))
  }

  lemma SliceFacts(s: seq<int>, first: nat, n: nat)
    requires Increasing(s) && 0 < n && first + n <= |s|
    ensures var actors := s[first..first + n];
            Increasing(actors) && actors[n - 1] == s[first + n - 1] &&
            (first + n == |s| ==> actors == s[first..] && (actors == s <==> first == 0))
  {
    if first == 0 {
      assert s[first..] == s;
    } else {
      assert |s[first..]| != |s|;
    }
  }

  lemma ActingFacts(rs: RuleSet, st: RoundState)
    requires WellFormed(rs, st) && st.actingSeat.Some?
    ensures st.players != [] && Acting(st)
    ensures var s, i := SortedSeats(st.players), Rank(st.players, st.actingSeat.value);
            |s| == |st.players| && Increasing(s) && 0 <= i < |s| && s[i] == st.actingSeat.value &&
            (st.stateClass == S12TableClose ==> i == |s| - 1)
  {
    SortedSeatsFacts(st.players);
  }

  lemma RoundsFrom(st: RoundState, actors: seq<int>, first: nat, i: nat)
    requires st.actingSeat.Some? && st.players != [] && Increasing(SortedSeats(st.players)) && Rotated(st, actors)
    requires first == Rank(st.players, st.players[0].seat) && i == Rank(st.players, st.actingSeat.value)
    requires first <= i < |SortedSeats(st.players)| && st.roundNumber == i - first
    requires SortedSeats(st.players)[i] == st.actingSeat.value
    requires st.stateClass == S12TableClose ==> i == |SortedSeats(st.players)| - 1
    ensures RoundsTaken(st, actors)
  {
    SliceFacts(SortedSeats(st.players), first, i + 1 - first);
  }

  lemma RotatedMeans(rs: RuleSet, st: RoundState, actors: seq<int>)
    requires WellFormed(rs, st) && Rotated(st, actors)
    ensures RoundsTaken(st, actors)
  {
    if st.actingSeat.Some? {
      ActingFacts(rs, st);
      FirstSeatRank(st.players);
      RoundsFrom(st, actors, Rank(st.players, st.players[0].seat), Rank(st.players, st.actingSeat.value));
    }
  }

  /**
   * Rotation over a whole run from the initial state. The acting seats are the ascending seats from
   * the first joiner's onwards; none acts twice; at table close the last seat has acted, and every
   * seat has acted exactly once if and only if the first to join took the lowest seat.
   */
  lemma RoundsRotate(
    impl: Impl, gameId: bytes, ruleSetHash: bytes, deadline: int, rs: RuleSet, log: seq<Entry>)
    requires Run(impl, InitialState(gameId, ruleSetHash, deadline), rs, log).Ok?
    ensures var init := InitialState(gameId, ruleSetHash, deadline);
            var st := Run(impl, init, rs, log).value;
            RoundsTaken(st, Actors(impl, init, rs, log))
  {
    var init := InitialState(gameId, ruleSetHash, deadline);
    RunKeeps(impl, init, rs, log);
    ActorsFromOpen(impl, init, rs, log);
    RotatedMeans(rs, Run(impl, init, rs, log).value, Actors(impl, init, rs, log));
  }
}
