/** The relay's session object, the loops behind the gate, and what replaying a transcript recovers. */
module Session {
  import opened Wrappers
  import opened Bytes
  import opened Protocol
  import opened Sequences
  import opened Sorting
  import opened Engine
  import opened Replay
  import opened Invariants
  import opened Agreement
  import opened CryptoCards
  import opened Gate
  import opened GateInvariant
  import GoEngine

  // ----- the loops of the gate -----

  lemma {:induction false} FirstBadAt(seated: seq<PlayerState>, i: nat)
    requires i < |seated|
    requires forall k :: 0 <= k < i ==> !Absent(GoRelay, seated[k].entropyValue) && |seated[k].entropyValue.value| == 32
    ensures Absent(GoRelay, seated[i].entropyValue) ==> FirstBad(seated) == Err(InvalidStateTransition)
    ensures !Absent(GoRelay, seated[i].entropyValue) && |seated[i].entropyValue.value| != 32 ==>
              FirstBad(seated) == Err(SerialisationError)
  {
    if i > 0 {
      FirstBadAt(seated[1..], i - 1);
    }
  }

  /** What the push loop found: all shares, nothing to combine (TypeScript), or the first defect (Go). */
  datatype Collected = Shared(entropies: seq<bytes>) | Missing | Bad(error: ErrorCode)

  ghost predicate CollectedFrom(impl: Impl, seated: seq<PlayerState>, c: Collected) {
    match c
    case Shared(es) =>
      es == Entropies(seated) && (forall k :: 0 <= k < |seated| ==> !Absent(impl, seated[k].entropyValue)) &&
      (impl.GoRelay? ==> forall k :: 0 <= k < |es| ==> |es[k]| == 32)
    case Missing => impl.TypeScript? && exists k :: 0 <= k < |seated| && Absent(impl, seated[k].entropyValue)
    case Bad(e) =>
      impl.GoRelay? && FirstBad(seated) == Err(e) &&
      ((exists k :: 0 <= k < |seated| && Absent(impl, seated[k].entropyValue)) ||
       (e == SerialisationError && exists k :: 0 <= k < |seated| && |Entropies(seated)[k]| != 32))
  }

  /** Push entropies in seat order, stopping at the first defect. */
  method CollectEntropies(impl: Impl, seated: array<PlayerState>) returns (c: Collected)
    ensures CollectedFrom(impl, seated[..], c)
  {
    ghost var sorted := seated[..];
    var entropies: seq<bytes> := [];
    for i := 0 to seated.Length
      invariant |entropies| == i && forall k :: 0 <= k < i ==> entropies[k] == Entropies(sorted)[k]
      invariant forall k :: 0 <= k < i ==> !Absent(impl, sorted[k].entropyValue)
      invariant impl.GoRelay? ==> forall k :: 0 <= k < i ==> |sorted[k].entropyValue.value| == 32
    {
      var e := seated[i].entropyValue;
      assert e == sorted[i].entropyValue;
      if impl.TypeScript? && e.None? {
        return Missing;
      }
      if impl.GoRelay? && (e.None? || e.value == []) {
        FirstBadAt(sorted, i);
        return Bad(InvalidStateTransition);
      }
      if impl.GoRelay? && |e.value| != 32 {
        FirstBadAt(sorted, i);
        assert |Entropies(sorted)[i]| != 32;
        return Bad(SerialisationError);
      }
      entropies := entropies + [e.value];
    }
    return Shared(entropies);
  }

  lemma MaterialisesFrom(impl: Impl, h: Hash, st: RoundState, rs: RuleSet, c: Collected)
    requires CollectedFrom(impl, Sort(PlayerLE, st.players), c)
    ensures c.Missing? ==> Materialise(impl, h, st, rs) == Ok(st)
    ensures c.Bad? ==> Materialise(impl, h, st, rs) == Err(c.error)
    ensures c.Shared? ==>
              Materialise(impl, h, st, rs) ==
              if exists i :: 0 <= i < |c.entropies| && |c.entropies[i]| != 32
              then Err(if impl.TypeScript? then Thrown else SerialisationError)
              else Stamp(impl, h, st, rs, c.entropies)
  {
  }

  /** Sort a copy of the players by seat, push their entropies, derive the deck. */
  method MaterialiseDeck(impl: Impl, h: Hash, st: RoundState, rs: RuleSet) returns (r: StepResult)
    ensures r == Materialise(impl, h, st, rs)
  {
    var seated := new PlayerState[|st.players|](i requires 0 <= i < |st.players| => st.players[i]);
    assert seated[..] == st.players;
    SortInPlace(PlayerLE, seated);
    var c := CollectEntropies(impl, seated);
    MaterialisesFrom(impl, h, st, rs, c);
    match c
    case Missing => return Ok(st);
    case Bad(e) => return Err(e);
    case Shared(entropies) =>
      if exists i :: 0 <= i < |entropies| && |entropies[i]| != 32 {
        return Err(if impl.TypeScript? then Thrown else SerialisationError);
      }
      r := StampDeck(impl, h, st, rs, entropies);
  }

  /** Combine the entropies, build the deck and record its hash. */
  method StampDeck(impl: Impl, h: Hash, st: RoundState, rs: RuleSet, entropies: seq<bytes>) returns (r: StepResult)
    ensures r == Stamp(impl, h, st, rs, entropies)
  {
    if entropies == [] {
      return Err(if impl.TypeScript? then Thrown else InvalidStateTransition);
    }
    var combined := CombineEntropy(h, entropies);
    var deck := BuildDeckCommitment(h, combined, rs.deckFormat, rs.shuffleVersion);
    if deck.None? {
      return Err(if impl.TypeScript? then Thrown else InvalidStateTransition);
    }
    return Ok(st.(combinedEntropy := Some(combined), deckCommitmentHash := Some(deck.value.hash)));
  }

  // ----- replaying without the gate -----

  lemma MaterialiseErases(impl: Impl, h: Hash, st: RoundState, rs: RuleSet)
    requires Materialise(impl, h, st, rs).Ok?
    ensures Erase(Materialise(impl, h, st, rs).value) == Erase(st)
  {
    NoneBad(Sort(PlayerLE, st.players));
  }

  lemma GateStepErases(impl: Impl, h: Hash, st: RoundState, a: SignedAction, rs: RuleSet, height: int)
    requires GateStep(impl, h, st, a, rs, height).Ok?
    ensures Apply(impl, Erase(st), a, rs, height) == Ok(Erase(GateStep(impl, h, st, a, rs, height).value))
  {
    StepErases(impl, st, a, rs, height);
    var st1 := Apply(impl, st, a, rs, height).value;
    if Materialise(impl, h, st1, rs).Ok? {
      MaterialiseErases(impl, h, st1, rs);
    }
  }

  /** The bare engine accepts whatever the gate accepted, and reaches the live state less its two stamped fields. */
  lemma {:induction false} BareRunErases(impl: Impl, h: Hash, st: RoundState, rs: RuleSet, log: seq<Entry>)
    requires GateRun(impl, h, st, rs, log).Ok?
    ensures Run(impl, Erase(st), rs, log) == Ok(Erase(GateRun(impl, h, st, rs, log).value))
    decreases |log|
  {
    if log != [] {
      GateStepErases(impl, h, st, log[0].action, rs, log[0].height);
      BareRunErases(impl, h, GateStep(impl, h, st, log[0].action, rs, log[0].height).value, rs, log[1..]);
    }
  }

  /**
   * The documentation says a replay gives the same final state. It does exactly while no entropy has
   * been combined; afterwards the replayed state lacks the combined entropy and the deck hash.
   */
  lemma ReplayIsExactBeforeTheDeck(
    impl: Impl, h: Hash, gameId: bytes, ruleSetHash: bytes, deadline: int, rs: RuleSet, log: seq<Entry>)
    requires GateRun(impl, h, InitialState(gameId, ruleSetHash, deadline), rs, log).Ok?
    ensures var init := InitialState(gameId, ruleSetHash, deadline);
            var live := GateRun(impl, h, init, rs, log).value;
            Run(impl, init, rs, log) == Ok(live) <==> live.combinedEntropy.None?
  {
    var init := InitialState(gameId, ruleSetHash, deadline);
    BareRunErases(impl, h, init, rs, log);
    GateRunKeeps(impl, h, init, rs, log);
  }

  // ----- the two gates -----

  /** The gate of this engine decodes the hexadecimal of the action's checked fields. */
  predicate ReadBy(impl: Impl, body: ActionBody) {
    match body
    case EntropyCommit(_, spelling) => Reads(impl, spelling)
    case EntropyReveal(_, spelling) => Reads(impl, spelling)
    case CardReveal(_, spelling) => impl.GoRelay? ==> spelling != Malformed
    case _ => true
  }

  lemma VerifyAgrees(h: Hash, st: RoundState, a: SignedAction, rs: RuleSet)
    requires AllBound(h, st) && (st.combinedEntropy.Some? ==> |st.combinedEntropy.value| == 32)
    ensures forall impl :: !ReadBy(impl, a.body) ==> VerifyCrypto(impl, h, st, a, rs).Some?
    ensures ReadBy(GoRelay, a.body) && ReadBy(TypeScript, a.body) ==>
              (VerifyCrypto(GoRelay, h, st, a, rs).None? <==> VerifyCrypto(TypeScript, h, st, a, rs).None?)
  {
  }

  /**
   * An action whose spelling a gate does not read is refused there. One that both read is accepted by
   * TypeScript's gate exactly when the relay's accepts it and the result is in range, with the same state.
   */
  lemma GatesAgree(h: Hash, st: RoundState, a: SignedAction, rs: RuleSet, height: int)
    requires GateInv(h, rs, st) && SafeState(st) && DeckShape(st) && 0 <= rs.stakeAmount <= MAX_SAFE &&
        rs.deckFormat > 0
    ensures forall impl :: !ReadBy(impl, a.body) ==> GateStep(impl, h, st, a, rs, height).Err?
    ensures ReadBy(GoRelay, a.body) && ReadBy(TypeScript, a.body) ==>
              Agree(GateStep(GoRelay, h, st, a, rs, height), GateStep(TypeScript, h, st, a, rs, height))
  {
    VerifyAgrees(h, st, a, rs);
    EnginesAgree(st, a, rs, height);
    if VerifyCrypto(GoRelay, h, st, a, rs).None? && Apply(GoRelay, st, a, rs, height).Ok? {
      var st1 := Apply(GoRelay, st, a, rs, height).value;
      StepKeeps(GoRelay, st, a, rs, height);
      StepBinds(GoRelay, h, st, a, rs, height);
      StepCarries(GoRelay, st, a, rs, height);
      if st.stateClass == S4EntropyReveal && st1.stateClass == S5DeckCommitted {
        EverySharePresent(h, st1);
        MaterialiseAgrees(h, st1, rs);
      }
    }
  }

  lemma MaterialiseAgrees(h: Hash, st: RoundState, rs: RuleSet)
    requires forall i :: 0 <= i < |Sort(PlayerLE, st.players)| ==>
               Sort(PlayerLE, st.players)[i].entropyValue.Some? &&
                 |Sort(PlayerLE, st.players)[i].entropyValue.value| == 32
    ensures var go, ts := Materialise(GoRelay, h, st, rs), Materialise(TypeScript, h, st, rs);
            (ts.Ok? <==> go.Ok?) && (ts.Ok? ==> ts == go && Erase(ts.value) == Erase(st))
  {
    PresentMaterialises(GoRelay, h, st, rs);
    PresentMaterialises(TypeScript, h, st, rs);
    StampAgrees(h, st, rs, Entropies(Sort(PlayerLE, st.players)));
  }

  lemma StampAgrees(h: Hash, st: RoundState, rs: RuleSet, es: seq<bytes>)
    ensures var go, ts := Stamp(GoRelay, h, st, rs, es), Stamp(TypeScript, h, st, rs, es);
            (ts.Ok? <==> go.Ok?) && (ts.Ok? ==> ts == go && Erase(ts.value) == Erase(st))
  {
  }

  /** Every state the relay passed through is in TypeScript's number range. */
  ghost predicate SafeThroughout(h: Hash, st: RoundState, rs: RuleSet, log: seq<Entry>)
    decreases |log|
  {
    SafeState(st) &&
    (log != [] ==>
      var r := GateStep(GoRelay, h, st, log[0].action, rs, log[0].height);
      r.Ok? ==> SafeThroughout(h, r.value, rs, log[1..]))
  }

  /** Every entropy field of the transcript is spelt in lower case. */
  ghost predicate LowerCaseThroughout(log: seq<Entry>) {
    forall e :: e in log ==> ReadBy(TypeScript, e.action.body)
  }

  /**
   * The conformance promise: a transcript the relay accepted replays under the TypeScript gate to the
   * same state if and only if every number stayed a safe integer and every entropy field was spelt in
   * lower case.
   */
  lemma {:induction false} RelayTranscriptsConform(h: Hash, st: RoundState, rs: RuleSet, log: seq<Entry>)
    requires GateInv(h, rs, st) && SafeState(st) && DeckShape(st) && 0 <= rs.stakeAmount <= MAX_SAFE &&
        rs.deckFormat > 0
    requires GateRun(GoRelay, h, st, rs, log).Ok?
    ensures GateRun(TypeScript, h, st, rs, log) == GateRun(GoRelay, h, st, rs, log) <==>
              SafeThroughout(h, st, rs, log) && LowerCaseThroughout(log)
    ensures GateRun(TypeScript, h, st, rs, log).Ok? <==>
              SafeThroughout(h, st, rs, log) && LowerCaseThroughout(log)
    decreases |log|
  {
    if log != [] {
      var st1 := ConformStep(h, st, rs, log);
      LowerCaseTail(log);
      if !SafeState(st1) {
        UnsafeStop(h, st1, rs, log[1..]);
      } else if ReadBy(TypeScript, log[0].action.body) {
        RelayTranscriptsConform(h, st1, rs, log[1..]);
      }
    }
  }

  lemma LowerCaseTail(log: seq<Entry>)
    requires log != []
    ensures LowerCaseThroughout(log) <==>
              ReadBy(TypeScript, log[0].action.body) && LowerCaseThroughout(log[1..])
  {
    assert log == [log[0]] + log[1..];
  }

  /** One step of the relay's run, as both gates see it. */
  lemma ConformStep(h: Hash, st: RoundState, rs: RuleSet, log: seq<Entry>) returns (st1: RoundState)
    requires GateInv(h, rs, st) && SafeState(st) && DeckShape(st) && 0 <= rs.stakeAmount <= MAX_SAFE &&
        rs.deckFormat > 0
    requires GateRun(GoRelay, h, st, rs, log).Ok? && log != []
    ensures GateInv(h, rs, st1) && DeckShape(st1)
    ensures GateRun(GoRelay, h, st1, rs, log[1..]) == GateRun(GoRelay, h, st, rs, log)
    ensures SafeThroughout(h, st, rs, log) <==> SafeThroughout(h, st1, rs, log[1..])
    ensures if ReadBy(TypeScript, log[0].action.body) && SafeState(st1)
            then GateRun(TypeScript, h, st, rs, log) == GateRun(TypeScript, h, st1, rs, log[1..])
            else GateRun(TypeScript, h, st, rs, log).Err?
  {
    var a, height := log[0].action, log[0].height;
    GatesAgree(h, st, a, rs, height);
    GateStepKeeps(GoRelay, h, st, a, rs, height);
    st1 := GateStep(GoRelay, h, st, a, rs, height).value;
  }

  lemma UnsafeStop(h: Hash, st: RoundState, rs: RuleSet, log: seq<Entry>)
    requires !SafeState(st)
    ensures !SafeThroughout(h, st, rs, log)
  {
  }

  /** The TypeScript audit loop: replay a transcript through the gate. */
  method ReplayWithVerification(
    h: Hash, gameId: bytes, ruleSetHash: bytes, rs: RuleSet, recoveryDeadline: int,
    actions: seq<SignedAction>, heights: seq<int>) returns (r: StepResult)
    ensures heights == [] && actions != [] ==> r == Err(SerialisationError)
    ensures heights != [] ==>
              r == GateRun(TypeScript, h, InitialState(gameId, ruleSetHash, recoveryDeadline), rs,
                PaddedEntries(actions, heights))
  {
    var state := InitialState(gameId, ruleSetHash, recoveryDeadline);
    if heights == [] {
      return if actions == [] then Ok(state) else Err(SerialisationError);
    }
    ghost var log := PaddedEntries(actions, heights);
    ghost var whole := GateRun(TypeScript, h, state, rs, log);
    for i := 0 to |actions|
      invariant GateRun(TypeScript, h, state, rs, log[i..]) == whole
    {
      var next := GateStep(TypeScript, h, state, actions[i], rs, HeightAt(heights, i));
      assert log[i..][0] == Entry(actions[i], HeightAt(heights, i)) && log[i..][1..] == log[i + 1..];
      if next.Err? {
        return next;
      }
      state := next.value;
    }
    r := Ok(state);
  }

  // ----- the session -----

  function Nonces(transcript: seq<SignedAction>): (n: seq<bytes>)
    ensures |n| == |transcript|
  {
    seq(|transcript|, i requires 0 <= i < |transcript| => transcript[i].nonce)
  }

  class Session {
    const hash: Hash
    const gameId: bytes
    const ruleSet: RuleSet
    ghost const ruleSetHash: bytes
    ghost const recoveryDeadline: int
    var state: RoundState
    var seenNonces: set<bytes>
    var transcript: seq<SignedAction>
    var heights: seq<int>

    ghost function Initial(): RoundState {
      InitialState(gameId, ruleSetHash, recoveryDeadline)
    }

    /** The live state is the gated fold of the transcript; no nonce occurs twice; the seen set is exact. */
    ghost predicate Valid()
      reads this
    {
      |heights| == |transcript| &&
      GateRun(GoRelay, hash, Initial(), ruleSet, Entries(transcript, heights)) == Ok(state) &&
      Distinct(Nonces(transcript)) &&
      forall n :: n in seenNonces <==> n in Nonces(transcript)
    }

    constructor (hash: Hash, gameId: bytes, ruleSet: RuleSet, ruleSetHash: bytes, recoveryDeadline: int)
      ensures Valid() && transcript == [] && state == InitialState(gameId, ruleSetHash, recoveryDeadline)
      ensures this.hash == hash && this.gameId == gameId && this.ruleSet == ruleSet
      ensures this.ruleSetHash == ruleSetHash && this.recoveryDeadline == recoveryDeadline
    {
      this.hash, this.gameId, this.ruleSet := hash, gameId, ruleSet;
      this.ruleSetHash, this.recoveryDeadline := ruleSetHash, recoveryDeadline;
      state := InitialState(gameId, ruleSetHash, recoveryDeadline);
      seenNonces, transcript, heights := {}, [], [];
    }

    method Submit(action: SignedAction, height: int) returns (r: StepResult)
      requires Valid()
      modifies this
      ensures Valid()
      ensures r == if action.nonce in old(seenNonces) then Err(StaleState)
                   else GateStep(GoRelay, hash, old(state), action, ruleSet, height)
      ensures r.Ok? ==>
                state == r.value && seenNonces == old(seenNonces) + {action.nonce} &&
                transcript == old(transcript) + [action] && heights == old(heights) + [height]
      ensures r.Err? ==> unchanged(this)
    {
      if action.nonce in seenNonces {
        return Err(StaleState);
      }
      var refused := VerifyCrypto(GoRelay, hash, state, action, ruleSet);
      if refused.Some? {
        return Err(refused.value);
      }
      var priorClass := state.stateClass;
      r := GoEngine.ApplyAction(state, action, ruleSet, height);
      if r.Err? {
        return r;
      }
      var next := r.value;
      if priorClass == S4EntropyReveal && next.stateClass == S5DeckCommitted && Absent(GoRelay, next.combinedEntropy) {
        r := MaterialiseDeck(GoRelay, hash, next, ruleSet);
        if r.Err? {
          return r;
        }
        next := r.value;
      }
      TranscriptGrows(transcript, heights, action, height);
      GateRunSnoc(GoRelay, hash, Initial(), ruleSet, Entries(transcript, heights), Entry(action, height));
      NoncesGrow(transcript, action, seenNonces);
      seenNonces := seenNonces + {action.nonce};
      transcript := transcript + [action];
      heights := heights + [height];
      state := next;
      r := Ok(next);
    }

    /** Replay the transcript without the gate: it never fails, and gives the live state less the stamped fields. */
    method Replay(ruleSetHash: bytes, recoveryDeadline: int) returns (replayed: RoundState, error: Option<ErrorCode>)
      requires Valid()
      ensures error.None? ==>
                Run(GoRelay, InitialState(gameId, ruleSetHash, recoveryDeadline), ruleSet,
                    Entries(transcript, heights)) == Ok(replayed)
      ensures ruleSetHash == this.ruleSetHash && recoveryDeadline == this.recoveryDeadline ==>
                error.None? && replayed == Erase(state) && (replayed == state <==> state.combinedEntropy.None?)
    {
      var initial := InitialState(gameId, ruleSetHash, recoveryDeadline);
      var index;
      replayed, index, error := ReplayGo(initial, ruleSet, transcript, heights);
      BareRunErases(GoRelay, hash, Initial(), ruleSet, Entries(transcript, heights));
      ReplayIsExactBeforeTheDeck(GoRelay, hash, gameId, this.ruleSetHash, this.recoveryDeadline, ruleSet,
        Entries(transcript, heights));
    }
  }

  lemma TranscriptGrows(transcript: seq<SignedAction>, heights: seq<int>, action: SignedAction, height: int)
    requires |transcript| == |heights|
    ensures Entries(transcript + [action], heights + [height]) == Entries(transcript, heights) + [Entry(action, height)]
  {
  }

  lemma NoncesGrow(transcript: seq<SignedAction>, action: SignedAction, seen: set<bytes>)
    requires Distinct(Nonces(transcript)) && (forall n :: n in seen <==> n in Nonces(transcript)) &&
        action.nonce !in seen
    ensures Distinct(Nonces(transcript + [action]))
    ensures forall n :: n in seen + {action.nonce} <==> n in Nonces(transcript + [action])
  {
    assert Nonces(transcript + [action]) == Nonces(transcript) + [action.nonce];
  }
}
