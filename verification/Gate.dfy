/** The verification gate in front of the engine, and what it guarantees over every run. */
module Gate {
  import opened Wrappers
  import opened Bytes
  import opened Protocol
  import opened Sequences
  import opened Sorting
  import opened Engine
  import opened Replay
  import opened CryptoCards

  /** TypeScript compares with null; in Go the empty string is the absent value. */
  predicate Absent(impl: Impl, o: Option<bytes>) {
    o.None? || (impl.GoRelay? && o.value == [])
  }

  /** TypeScript tests entropy fields against lower-case hexadecimal; Go decodes any well-formed one. */
  predicate Reads(impl: Impl, spelling: Spelling) {
    if impl.TypeScript? then spelling == LowerCase else spelling != Malformed
  }

  function CheckEntropyReveal(
    impl: Impl, h: Hash, st: RoundState, seat: Option<int>, entropy: bytes, spelling: Spelling): Option<ErrorCode>
  {
    if seat.None? then Some(SeatOutOfRange)
    else
      var i := FindSeat(st.players, seat.value);
      if i < 0 then Some(if impl.TypeScript? then PlayerNotSeated else InvalidStateTransition)
      else
        var p := st.players[i];
        if Absent(impl, p.commitmentHash) then Some(InvalidStateTransition)
        else if !Reads(impl, spelling) || |entropy| != 32 then Some(InvalidRevealProof)
        else if |p.pubkey| < 32 then Some(SerialisationError)
        else if |st.gameId| != 32 then Some(SerialisationError)
        else if CommitEntropy(h, entropy, Tail32(p.pubkey), st.gameId) != p.commitmentHash.value then
          Some(InvalidRevealProof)
        else None
  }

  /** Nonces are decoded without a test in TypeScript. */
  function CheckCardReveal(
    impl: Impl, h: Hash, st: RoundState, r: RevealProof, spelling: Spelling, rs: RuleSet): Option<ErrorCode>
  {
    if Absent(impl, st.combinedEntropy) then Some(InvalidStateTransition)
    else if impl.GoRelay? && |st.combinedEntropy.value| != 32 then Some(SerialisationError)
    else
      var deck := DeckOf(h, st.combinedEntropy.value, rs.deckFormat, rs.shuffleVersion);
      if deck.None? then Some(if impl.TypeScript? then Thrown else InvalidStateTransition)
      else if !(0 <= r.position < |deck.value.rows|) then Some(InvalidRevealProof)
      else if impl.GoRelay? && (spelling == Malformed || |r.cardNonce| != 32 || |r.deckNonce| != 32) then
        Some(SerialisationError)
      else
        var ok := VerifyReveal(h, deck.value.rows[r.position].commitment, r.revealedCard.ordinal, r.cardNonce,
          r.deckNonce);
        if ok.None? then Some(if impl.TypeScript? then Thrown else InvalidRevealProof)
        else if !ok.value then Some(InvalidRevealProof)
        else None
  }

  /** The cryptographic pre-check of one action: None lets it through. */
  function VerifyCrypto(impl: Impl, h: Hash, st: RoundState, a: SignedAction, rs: RuleSet): Option<ErrorCode> {
    match a.body
    case EntropyCommit(c, spelling) => if !Reads(impl, spelling) || |c| != 32 then Some(InvalidSignature) else None
    case EntropyReveal(e, spelling) => CheckEntropyReveal(impl, h, st, a.seat, e, spelling)
    case CardReveal(r, spelling) => CheckCardReveal(impl, h, st, r, spelling, rs)
    case _ => None
  }

  function PlayerLE(p: PlayerState, q: PlayerState): bool { p.seat <= q.seat }

  /** Revealed entropies in the order of ascending seats. */
  function Entropies(players: seq<PlayerState>): (r: seq<bytes>)
    ensures |r| == |players|
  {
    seq(|players|, i requires 0 <= i < |players| =>
      if players[i].entropyValue.None? then [] else players[i].entropyValue.value)
  }

  function Materialise(impl: Impl, h: Hash, st: RoundState, rs: RuleSet): StepResult {
    var seated := Sort(PlayerLE, st.players);
    var es := Entropies(seated);
    if exists i :: 0 <= i < |seated| && Absent(impl, seated[i].entropyValue) then
      if impl.TypeScript? then Ok(st) else FirstBad(seated)
    else if exists i :: 0 <= i < |es| && |es[i]| != 32 then Err(if impl.TypeScript? then Thrown else SerialisationError)
    else Stamp(impl, h, st, rs, es)
  }

  /** Combine the entropies and record the deck they determine. */
  function Stamp(impl: Impl, h: Hash, st: RoundState, rs: RuleSet, es: seq<bytes>): StepResult {
    if es == [] then Err(if impl.TypeScript? then Thrown else InvalidStateTransition)
    else
      var combined := CombineEntropy(h, es);
      var deck := DeckOf(h, combined, rs.deckFormat, rs.shuffleVersion);
      if deck.None? then Err(if impl.TypeScript? then Thrown else InvalidStateTransition)
      else Ok(st.(combinedEntropy := Some(combined), deckCommitmentHash := Some(deck.value.hash)))
  }

  /** With every entropy present and 32 bytes long, nothing stands in the way of the stamp. */
  lemma PresentMaterialises(impl: Impl, h: Hash, st: RoundState, rs: RuleSet)
    requires forall i :: 0 <= i < |Sort(PlayerLE, st.players)| ==>
               Sort(PlayerLE, st.players)[i].entropyValue.Some? &&
                 |Sort(PlayerLE, st.players)[i].entropyValue.value| == 32
    ensures Materialise(impl, h, st, rs) == Stamp(impl, h, st, rs, Entropies(Sort(PlayerLE, st.players)))
  {
    var seated := Sort(PlayerLE, st.players);
    assert forall i :: 0 <= i < |seated| ==> !Absent(impl, seated[i].entropyValue);
    assert forall i :: 0 <= i < |seated| ==> |Entropies(seated)[i]| == 32;
  }

  /** The Go loop reports the first defect in seat order: a missing entropy or one of the wrong length. */
  function FirstBad(seated: seq<PlayerState>): StepResult {
    if seated == [] then Err(InvalidStateTransition)
    else if Absent(GoRelay, seated[0].entropyValue) then Err(InvalidStateTransition)
    else if |seated[0].entropyValue.value| != 32 then Err(SerialisationError)
    else FirstBad(seated[1..])
  }

  /** verifyAndApply in TypeScript, Session.Submit's core in Go. */
  function GateStep(impl: Impl, h: Hash, st: RoundState, a: SignedAction, rs: RuleSet, height: int): StepResult {
    var refused := VerifyCrypto(impl, h, st, a, rs);
    if refused.Some? then Err(refused.value)
    else
      var r := Apply(impl, st, a, rs, height);
      if r.Ok? && st.stateClass == S4EntropyReveal && r.value.stateClass == S5DeckCommitted &&
         Absent(impl, r.value.combinedEntropy)
      then Materialise(impl, h, r.value, rs)
      else r
  }

  function GateRun(impl: Impl, h: Hash, st: RoundState, rs: RuleSet, log: seq<Entry>): StepResult
    decreases |log|
  {
    if log == [] then Ok(st)
    else
      var r := GateStep(impl, h, st, log[0].action, rs, log[0].height);
      if r.Err? then r else GateRun(impl, h, r.value, rs, log[1..])
  }

  lemma {:induction false} GateRunSnoc(impl: Impl, h: Hash, st: RoundState, rs: RuleSet, log: seq<Entry>, e: Entry)
    ensures var r := GateRun(impl, h, st, rs, log);
            GateRun(impl, h, st, rs, log + [e]) ==
              if r.Err? then r else GateStep(impl, h, r.value, e.action, rs, e.height)
    decreases |log|
  {
    if log == [] {
      assert log + [e] == [e] && [e][1..] == [];
      var s := GateStep(impl, h, st, e.action, rs, e.height);
      assert GateRun(impl, h, st, rs, [e]) == if s.Err? then s else GateRun(impl, h, s.value, rs, []);
    } else {
      assert (log + [e])[0] == log[0] && (log + [e])[1..] == log[1..] + [e];
      var s := GateStep(impl, h, st, log[0].action, rs, log[0].height);
      if s.Ok? {
        GateRunSnoc(impl, h, s.value, rs, log[1..], e);
      }
    }
  }

  lemma GateRunLast(impl: Impl, h: Hash, st: RoundState, rs: RuleSet, log: seq<Entry>)
    requires log != []
    ensures var r := GateRun(impl, h, st, rs, log[..|log| - 1]);
            var e := log[|log| - 1];
            GateRun(impl, h, st, rs, log) == if r.Err? then r else GateStep(impl, h, r.value, e.action, rs, e.height)
  {
    assert log == log[..|log| - 1] + [log[|log| - 1]];
    GateRunSnoc(impl, h, st, rs, log[..|log| - 1], log[|log| - 1]);
  }

  // ----- shares: who revealed what -----

  type Share = (int, bytes)

  function ShareOf(p: PlayerState): Share {
    (p.seat, if p.entropyValue.None? then [] else p.entropyValue.value)
  }

  function Shares(players: seq<PlayerState>): seq<Share> {
    Mapped(ShareOf, players)
  }

  function ShareLE(x: Share, y: Share): bool { x.0 <= y.0 }

  function ValueOf(x: Share): bytes { x.1 }

  /** The entropies the gate combines depend only on the shares. */
  lemma EntropiesFromShares(players: seq<PlayerState>)
    ensures Entropies(Sort(PlayerLE, players)) == Mapped(ValueOf, Sort(ShareLE, Shares(players)))
  {
    SortMapped(PlayerLE, ShareLE, ShareOf, players);
  }

  lemma SharesFixOrder(a: seq<PlayerState>, b: seq<PlayerState>)
    requires Distinct(SeatsOf(a)) && Distinct(SeatsOf(b))
    requires forall x :: x in Shares(a) <==> x in Shares(b)
    ensures Sort(ShareLE, Shares(a)) == Sort(ShareLE, Shares(b))
  {
    DistinctShares(a);
    DistinctShares(b);
    SameElements(Shares(a), Shares(b));
    SortIgnoresOrder(ShareLE, Shares(a), Shares(b));
  }

  lemma DistinctShares(players: seq<PlayerState>)
    requires Distinct(SeatsOf(players))
    ensures Distinct(Shares(players)) && Strict(ShareLE, Shares(players))
  {
    var s := Shares(players);
    forall i, j | 0 <= i < j < |s|
      ensures s[i].0 != s[j].0
    {
      assert SeatsOf(players)[i] != SeatsOf(players)[j];
    }
    forall x, y | x in s && y in s && ShareLE(x, y) && ShareLE(y, x)
      ensures x == y
    {
      var i, j :| 0 <= i < |s| && 0 <= j < |s| && s[i] == x && s[j] == y;
    }
  }
}
