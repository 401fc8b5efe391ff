/** The state hash over gated runs: stamped fields are digests, and the gate has measured the hashes. */
module GatedStateHash {
  import opened Bytes
  import opened Protocol
  import opened Engine
  import opened Replay
  import opened Agreement
  import opened Gate
  import opened GateInvariant
  import opened Session
  import opened StateEncoding
  import opened StateWriter

  /** What the encoder asks of an action that passed the gate: commitments and entropies are 32 bytes there. */
  predicate SuppliesGated(body: ActionBody) {
    match body
    case Join(key, _) => Is32(key)
    case DealConcealed(cards) => forall i :: 0 <= i < |cards| ==> Measured(cards[i])
    case _ => true
  }

  ghost predicate AllSupplyGated(log: seq<Entry>) {
    forall e :: e in log ==> SuppliesGated(e.action.body)
  }

  lemma GateMeasures(impl: Impl, h: Hash, st: RoundState, a: SignedAction, rs: RuleSet, height: int)
    requires GateStep(impl, h, st, a, rs, height).Ok?
    ensures Supplies(a.body) <==> SuppliesGated(a.body)
  {
    assert VerifyCrypto(impl, h, st, a, rs).None?;
  }

  lemma {:induction false} GateRunMeasures(impl: Impl, h: Hash, st: RoundState, rs: RuleSet, log: seq<Entry>)
    requires GateRun(impl, h, st, rs, log).Ok?
    ensures AllSupply(log) <==> AllSupplyGated(log)
    decreases |log|
  {
    if log != [] {
      GateMeasures(impl, h, st, log[0].action, rs, log[0].height);
      GateRunMeasures(impl, h, GateStep(impl, h, st, log[0].action, rs, log[0].height).value, rs, log[1..]);
      assert log == [log[0]] + log[1..];
    }
  }

  lemma StampedFieldsEncode(h: Hash, rs: RuleSet, st: RoundState)
    requires GateInv(h, rs, st)
    ensures Writable(st) <==> Writable(Erase(st))
  {
  }

  /**
   * The state that a gated run reaches encodes exactly when the session's two hashes and the joining keys are
   * 32 bytes and the dealt cards' hashes and keys are.
   */
  lemma GatedStateEncodes(
    impl: Impl, h: Hash, gameId: bytes, ruleSetHash: bytes, deadline: int, rs: RuleSet, log: seq<Entry>)
    requires GateRun(impl, h, InitialState(gameId, ruleSetHash, deadline), rs, log).Ok?
    ensures Writable(GateRun(impl, h, InitialState(gameId, ruleSetHash, deadline), rs, log).value) <==>
              Is32(gameId) && Is32(ruleSetHash) && AllSupplyGated(log)
  {
    var st := InitialState(gameId, ruleSetHash, deadline);
    GateRunKeeps(impl, h, st, rs, log);
    StampedFieldsEncode(h, rs, GateRun(impl, h, st, rs, log).value);
    BareRunErases(impl, h, st, rs, log);
    assert Erase(st) == st;
    EngineStateEncodes(impl, gameId, ruleSetHash, deadline, rs, log);
    GateRunMeasures(impl, h, st, rs, log);
  }
}
