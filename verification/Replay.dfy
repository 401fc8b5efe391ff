/** Folding a transcript through the engine, as both engines replay it. */
module Replay {
  import opened Wrappers
  import opened Bytes
  import opened Protocol
  import opened Engine

  datatype Entry = Entry(action: SignedAction, height: int)

  function Run(impl: Impl, st: RoundState, rs: RuleSet, log: seq<Entry>): StepResult
    decreases |log|
  {
    if log == [] then Ok(st)
    else
      var r := Apply(impl, st, log[0].action, rs, log[0].height);
      if r.Err? then r else Run(impl, r.value, rs, log[1..])
  }

  /** A run over a concatenation is the second run continued from where the first ended. */
  lemma {:induction false} RunConcat(impl: Impl, st: RoundState, rs: RuleSet, a: seq<Entry>, b: seq<Entry>)
    ensures var r := Run(impl, st, rs, a);
            Run(impl, st, rs, a + b) == if r.Err? then r else Run(impl, r.value, rs, b)
    decreases |a|
  {
    if a == [] {
      assert a + b == b;
    } else {
      assert (a + b)[1..] == a[1..] + b;
      var r := Apply(impl, st, a[0].action, rs, a[0].height);
      if r.Ok? {
        RunConcat(impl, r.value, rs, a[1..], b);
      }
    }
  }

  lemma RunOne(impl: Impl, st: RoundState, rs: RuleSet, e: Entry)
    ensures Run(impl, st, rs, [e]) == Apply(impl, st, e.action, rs, e.height)
  {
    var s := Apply(impl, st, e.action, rs, e.height);
    assert [e][1..] == [];
    assert Run(impl, st, rs, [e]) == if s.Err? then s else Run(impl, s.value, rs, []);
  }

  lemma RunLast(impl: Impl, st: RoundState, rs: RuleSet, log: seq<Entry>)
    requires log != []
    ensures var r := Run(impl, st, rs, log[..|log| - 1]);
            var e := log[|log| - 1];
            Run(impl, st, rs, log) == if r.Err? then r else Apply(impl, r.value, e.action, rs, e.height)
  {
    var e := log[|log| - 1];
    var r := Run(impl, st, rs, log[..|log| - 1]);
    assert log == log[..|log| - 1] + [e];
    RunConcat(impl, st, rs, log[..|log| - 1], [e]);
    if r.Ok? {
      RunOne(impl, r.value, rs, e);
    }
  }

  /** One more action: a rejection decides the whole run, an acceptance extends the prefix. */
  lemma RunStep(impl: Impl, st: RoundState, rs: RuleSet, log: seq<Entry>, i: nat, next: StepResult)
    requires i < |log| && Run(impl, st, rs, log[..i]).Ok?
    requires next == Apply(impl, Run(impl, st, rs, log[..i]).value, log[i].action, rs, log[i].height)
    ensures Run(impl, st, rs, log[..i + 1]) == next
    ensures next.Err? ==> Run(impl, st, rs, log) == next
  {
    var r := Run(impl, st, rs, log[..i]);
    assert log[..i + 1] == log[..i] + [log[i]];
    RunConcat(impl, st, rs, log[..i], [log[i]]);
    RunOne(impl, r.value, rs, log[i]);
    assert log == log[..i + 1] + log[i + 1..];
    RunConcat(impl, st, rs, log[..i + 1], log[i + 1..]);
  }

  function Entries(actions: seq<SignedAction>, heights: seq<int>): (log: seq<Entry>)
    requires |actions| == |heights|
    ensures |log| == |actions|
  {
    seq(|actions|, i requires 0 <= i < |actions| => Entry(actions[i], heights[i]))
  }

  /**
   * The Go relay's Replay loop: the final state, or the state and index at which the first
   * action was refused.
   */
  method ReplayGo(initial: RoundState, rs: RuleSet, actions: seq<SignedAction>, heights: seq<int>)
    returns (state: RoundState, index: int, error: Option<ErrorCode>)
    ensures |actions| != |heights| ==> error == Some(InvalidStateTransition) && index == -1 && state == initial
    ensures |actions| == |heights| && error.None? ==>
              index == |actions| && Run(GoRelay, initial, rs, Entries(actions, heights)) == Ok(state)
    ensures |actions| == |heights| && error.Some? ==>
              0 <= index < |actions| &&
              Run(GoRelay, initial, rs, Entries(actions, heights)) == Err(error.value) &&
              Run(GoRelay, initial, rs, Entries(actions, heights)[..index]) == Ok(state) &&
              Apply(GoRelay, state, actions[index], rs, heights[index]) == Err(error.value)
  {
    if |actions| != |heights| {
      return initial, -1, Some(InvalidStateTransition);
    }
    state := initial;
    ghost var log := Entries(actions, heights);
    for i := 0 to |actions|
      invariant Run(GoRelay, initial, rs, log[..i]) == Ok(state)
    {
      var next := Apply(GoRelay, state, actions[i], rs, heights[i]);
      RunStep(GoRelay, initial, rs, log, i, next);
      if next.Err? {
        return state, i, Some(next.error);
      }
      state := next.value;
    }
    assert log[..|actions|] == log;
    index, error := |actions|, None;
  }

  /** The height TypeScript uses for action i: a short list repeats its last entry. */
  function HeightAt(heights: seq<int>, i: nat): int
    requires heights != []
  {
    if i < |heights| then heights[i] else heights[|heights| - 1]
  }

  function PaddedEntries(actions: seq<SignedAction>, heights: seq<int>): (log: seq<Entry>)
    requires heights != []
    ensures |log| == |actions|
  {
    seq(|actions|, i requires 0 <= i < |actions| => Entry(actions[i], HeightAt(heights, i)))
  }

  /** Every action is replayed in order, at its own height, or at the last one where the list is short. */
  lemma PaddedAt(actions: seq<SignedAction>, heights: seq<int>, i: nat)
    requires heights != [] && i < |actions|
    ensures PaddedEntries(actions, heights)[i].action == actions[i]
    ensures i < |heights| ==> PaddedEntries(actions, heights)[i].height == heights[i]
    ensures i >= |heights| ==> PaddedEntries(actions, heights)[i].height == heights[|heights| - 1]
  {
  }

  /** The TypeScript replay loop from a fresh initial state. */
  method ReplayTypeScript(
    gameId: bytes, ruleSetHash: bytes, rs: RuleSet, recoveryDeadline: int,
    actions: seq<SignedAction>, heights: seq<int>) returns (r: StepResult)
    ensures heights == [] && actions != [] ==> r == Err(SerialisationError)
    ensures actions == [] ==> r == Ok(InitialState(gameId, ruleSetHash, recoveryDeadline))
    ensures heights != [] ==>
              r == Run(TypeScript, InitialState(gameId, ruleSetHash, recoveryDeadline), rs,
                       PaddedEntries(actions, heights))
  {
    var state := InitialState(gameId, ruleSetHash, recoveryDeadline);
    ghost var log := if heights == [] then [] else PaddedEntries(actions, heights);
    ghost var whole := Run(TypeScript, state, rs, log);
    for i := 0 to |actions|
      invariant heights == [] ==> i == 0
      invariant heights != [] ==> Run(TypeScript, state, rs, log[i..]) == whole
      invariant i == 0 ==> state == InitialState(gameId, ruleSetHash, recoveryDeadline)
    {
      if heights == [] {
        return Err(SerialisationError);
      }
      var next := Apply(TypeScript, state, actions[i], rs, HeightAt(heights, i));
      assert log[i..][0] == Entry(actions[i], HeightAt(heights, i)) && log[i..][1..] == log[i + 1..];
      if next.Err? {
        return next;
      }
      state := next.value;
    }
    r := Ok(state);
  }
}
