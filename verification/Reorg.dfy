/** Reindexing after a chain reorganisation. */
module Reorg {
  import opened Wrappers
  import opened Bytes
  import opened Protocol
  import opened Sequences
  import opened Engine
  import opened Replay

  datatype Block = Block(hash: bytes, height: int, actions: seq<SignedAction>)

  function Hashes(chain: seq<Block>): (h: seq<bytes>)
    ensures |h| == |chain|
  {
    seq(|chain|, i requires 0 <= i < |chain| => chain[i].hash)
  }

  /** The first n actions of a block, each at the block's height. */
  function BlockEntries(b: Block, n: nat): (r: seq<Entry>)
    requires n <= |b.actions|
    ensures |r| == n
  {
    seq(n, i requires 0 <= i < n => Entry(b.actions[i], b.height))
  }

  /** The entries a run of blocks confirms, each at its block's height. */
  function Confirmed(chain: seq<Block>): seq<Entry> {
    if chain == [] then []
    else
      var b := chain[0];
      BlockEntries(b, |b.actions|) + Confirmed(chain[1..])
  }

  function Actions(chain: seq<Block>): seq<SignedAction> {
    if chain == [] then [] else chain[0].actions + Actions(chain[1..])
  }

  lemma {:induction false} ConfirmedConcat(a: seq<Block>, b: seq<Block>)
    ensures Confirmed(a + b) == Confirmed(a) + Confirmed(b)
  {
    if a == [] {
      assert a + b == b;
    } else {
      assert (a + b)[1..] == a[1..] + b;
      ConfirmedConcat(a[1..], b);
    }
  }

  lemma {:induction false} ActionsConcat(a: seq<Block>, b: seq<Block>)
    ensures Actions(a + b) == Actions(a) + Actions(b)
  {
    if a == [] {
      assert a + b == b;
    } else {
      assert (a + b)[1..] == a[1..] + b;
      ActionsConcat(a[1..], b);
    }
  }

  lemma SplitActions(chain: seq<Block>, k: nat)
    requires k <= |chain|
    ensures Actions(chain) == Actions(chain[..k]) + Actions(chain[k..])
  {
    assert chain == chain[..k] + chain[k..];
    ActionsConcat(chain[..k], chain[k..]);
  }

  /** Action j of block i is confirmed at that block's height, behind all actions of the blocks before. */
  lemma {:induction false} ConfirmedAt(chain: seq<Block>, i: nat, j: nat)
    requires i < |chain| && j < |chain[i].actions|
    ensures var k := |Actions(chain[..i])| + j;
            k < |Confirmed(chain)| && Confirmed(chain)[k].action == chain[i].actions[j] &&
            Confirmed(chain)[k].height == chain[i].height
  {
    if i > 0 {
      ConfirmedAt(chain[1..], i - 1, j);
      assert chain[..i][1..] == chain[1..][..i - 1];
    } else {
      assert chain[..0] == [];
    }
  }

  lemma {:induction false} NothingElseConfirmed(chain: seq<Block>)
    ensures |Confirmed(chain)| == |Actions(chain)|
  {
    if chain != [] {
      NothingElseConfirmed(chain[1..]);
    }
  }

  /** k is the length of the longest common prefix of the two chains' hashes. */
  ghost predicate LongestCommonPrefix(a: seq<Block>, b: seq<Block>, k: nat) {
    k <= |a| && k <= |b| && Hashes(a)[..k] == Hashes(b)[..k] &&
    (k < |a| && k < |b| ==> a[k].hash != b[k].hash)
  }

  /** Any shared prefix of hashes is at most k long, so the longest one is unique. */
  lemma LongestIsLongest(a: seq<Block>, b: seq<Block>, k: nat, m: nat)
    requires LongestCommonPrefix(a, b, k)
    ensures m <= |a| && m <= |b| && Hashes(a)[..m] == Hashes(b)[..m] ==> m <= k
    ensures LongestCommonPrefix(a, b, m) ==> m == k
  {
    if m <= |a| && m <= |b| && m > k {
      assert Hashes(a)[..m][k] == a[k].hash && Hashes(b)[..m][k] == b[k].hash;
    }
    if m < k {
      assert Hashes(a)[..k][m] == a[m].hash && Hashes(b)[..k][m] == b[m].hash;
    }
  }

  method DeepestCommonAncestor(oldChain: seq<Block>, newChain: seq<Block>) returns (i: nat)
    ensures LongestCommonPrefix(oldChain, newChain, i)
  {
    var n := |oldChain|;
    if |newChain| < n {
      n := |newChain|;
    }
    i := 0;
    while i < n && oldChain[i].hash == newChain[i].hash
      invariant i <= n && forall k :: 0 <= k < i ==> oldChain[k].hash == newChain[k].hash
    {
      i := i + 1;
    }
    assert Hashes(oldChain)[..i] == Hashes(newChain)[..i];
  }

  method Flatten(blocks: seq<Block>) returns (actions: seq<SignedAction>, heights: seq<int>)
    ensures |actions| == |heights| && Entries(actions, heights) == Confirmed(blocks)
  {
    actions, heights := [], [];
    for i := 0 to |blocks|
      invariant |actions| == |heights| && Entries(actions, heights) == Confirmed(blocks[..i])
    {
      var b := blocks[i];
      ghost var done := Confirmed(blocks[..i]);
      for j := 0 to |b.actions|
        invariant |actions| == |heights| && Entries(actions, heights) == done + BlockEntries(b, j)
      {
        ghost var before := Entries(actions, heights);
        actions := actions + [b.actions[j]];
        heights := heights + [b.height];
        assert Entries(actions, heights) == before + [Entry(b.actions[j], b.height)];
        assert BlockEntries(b, j + 1) == BlockEntries(b, j) + [Entry(b.actions[j], b.height)];
      }
      assert blocks[..i + 1] == blocks[..i] + [b];
      ConfirmedConcat(blocks[..i], [b]);
      assert [b][1..] == [] && Confirmed([b][1..]) == [];
    }
    assert blocks[..|blocks|] == blocks;
  }

  datatype Reindexed = Reindexed(state: RoundState, orphaned: seq<SignedAction>, ancestor: nat)

  /**
   * Reindexing in two replays, through the shared prefix and then the new suffix, gives the state or
   * the error of one replay of the whole new chain, whatever the old chain was; the ancestor is the
   * longest common hash prefix; and the old chain's actions are those of its prefix followed by the
   * orphaned ones in order.
   */
  method Reindex(initial: RoundState, rs: RuleSet, oldChain: seq<Block>, newChain: seq<Block>)
    returns (r: Result<Reindexed, ErrorCode>)
    ensures r.Err? ==> Run(GoRelay, initial, rs, Confirmed(newChain)) == Err(r.error)
    ensures r.Ok? ==>
              Run(GoRelay, initial, rs, Confirmed(newChain)) == Ok(r.value.state) &&
              LongestCommonPrefix(oldChain, newChain, r.value.ancestor) &&
              r.value.orphaned == Actions(oldChain[r.value.ancestor..]) &&
              Actions(oldChain) == Actions(oldChain[..r.value.ancestor]) + r.value.orphaned
  {
    var anc := DeepestCommonAncestor(oldChain, newChain);
    var orphaned: seq<SignedAction> := [];
    for i := anc to |oldChain|
      invariant orphaned == Actions(oldChain[anc..i])
    {
      orphaned := orphaned + oldChain[i].actions;
      assert oldChain[anc..i + 1] == oldChain[anc..i] + [oldChain[i]];
      ActionsConcat(oldChain[anc..i], [oldChain[i]]);
      assert Actions([oldChain[i]]) == oldChain[i].actions + Actions([oldChain[i]][1..]) == oldChain[i].actions;
    }
    assert oldChain[anc..|oldChain|] == oldChain[anc..];
    SplitActions(oldChain, anc);
    assert newChain == newChain[..anc] + newChain[anc..];
    ConfirmedConcat(newChain[..anc], newChain[anc..]);
    RunConcat(GoRelay, initial, rs, Confirmed(newChain[..anc]), Confirmed(newChain[anc..]));

    var prefixActions, prefixHeights := Flatten(newChain[..anc]);
    var ancestorState, _, perr := ReplayGo(initial, rs, prefixActions, prefixHeights);
    if perr.Some? {
      return Err(perr.value);
    }
    var suffixActions, suffixHeights := Flatten(newChain[anc..]);
    var finalState, _, serr := ReplayGo(ancestorState, rs, suffixActions, suffixHeights);
    if serr.Some? {
      return Err(serr.value);
    }
    return Ok(Reindexed(finalState, orphaned, anc));
  }

  // ----- what is reported as orphaned -----

  /** The actions of s that the other list does not contain, in order. */
  function Without(s: seq<SignedAction>, other: seq<SignedAction>): (r: seq<SignedAction>)
    ensures forall a :: a in r <==> a in s && a !in other
  {
    if s == [] then [] else (if s[0] in other then [] else [s[0]]) + Without(s[1..], other)
  }

  lemma {:induction false} WithoutConcat(s: seq<SignedAction>, t: seq<SignedAction>, other: seq<SignedAction>)
    ensures Without(s + t, other) == Without(s, other) + Without(t, other)
  {
    if s == [] {
      assert s + t == t;
    } else {
      assert (s + t)[1..] == s[1..] + t;
      WithoutConcat(s[1..], t, other);
    }
  }

  lemma {:induction false} WithoutAll(s: seq<SignedAction>, other: seq<SignedAction>)
    ensures Without(s, other) == [] <==> forall a :: a in s ==> a in other
    ensures Without(s, other) == s <==> forall a :: a in s ==> a !in other
  {
    if s != [] {
      WithoutAll(s[1..], other);
      assert s == [s[0]] + s[1..];
      WithoutShortens(s[1..], other);
    }
  }

  lemma {:induction false} WithoutShortens(s: seq<SignedAction>, other: seq<SignedAction>)
    ensures |Without(s, other)| <= |s|
  {
    if s != [] {
      WithoutShortens(s[1..], other);
    }
  }

  /** A block hash names one block. */
  ghost predicate HashesName(a: seq<Block>, b: seq<Block>) {
    forall i, j :: 0 <= i < |a| && 0 <= j < |b| && a[i].hash == b[j].hash ==> a[i] == b[j]
  }

  lemma SharedPrefix(oldChain: seq<Block>, newChain: seq<Block>, k: nat)
    requires LongestCommonPrefix(oldChain, newChain, k) && HashesName(oldChain, newChain)
    ensures oldChain[..k] == newChain[..k]
    ensures forall a :: a in Actions(oldChain[..k]) ==> a in Actions(newChain)
  {
    forall i | 0 <= i < k
      ensures oldChain[i] == newChain[i]
    {
      assert Hashes(oldChain)[..k][i] == oldChain[i].hash && Hashes(newChain)[..k][i] == newChain[i].hash;
    }
    assert oldChain[..k] == newChain[..k];
    SplitActions(newChain, k);
  }

  /** The actions confirmed only in the abandoned chain, which is what the result promises to list. */
  function OnlyInOld(oldChain: seq<Block>, newChain: seq<Block>): seq<SignedAction> {
    Without(Actions(oldChain), Actions(newChain))
  }

  /**
   * The reported list is the promised one with extra entries: leaving out the actions that the new chain
   * confirms again gives exactly the actions confirmed only in the old chain, in order.
   */
  lemma ReportedBeyondOrphans(oldChain: seq<Block>, newChain: seq<Block>, k: nat)
    requires LongestCommonPrefix(oldChain, newChain, k) && HashesName(oldChain, newChain)
    ensures Without(Actions(oldChain[k..]), Actions(newChain)) == OnlyInOld(oldChain, newChain)
  {
    SharedPrefix(oldChain, newChain, k);
    SplitActions(oldChain, k);
    WithoutConcat(Actions(oldChain[..k]), Actions(oldChain[k..]), Actions(newChain));
    WithoutAll(Actions(oldChain[..k]), Actions(newChain));
  }

  /** Only blocks before the fork hold actions that the new chain confirms too. */
  ghost predicate SharedOnlyBeforeFork(oldChain: seq<Block>, newChain: seq<Block>, k: nat) {
    forall i, a :: 0 <= i < |oldChain| && a in oldChain[i].actions && a in Actions(newChain) ==> i < k
  }

  lemma {:induction false} ActionsOf(chain: seq<Block>, a: SignedAction)
    ensures a in Actions(chain) <==> exists i :: 0 <= i < |chain| && a in chain[i].actions
  {
    if chain != [] {
      ActionsOf(chain[1..], a);
      if a in Actions(chain[1..]) {
        var i :| 0 <= i < |chain[1..]| && a in chain[1..][i].actions;
        assert a in chain[i + 1].actions;
      }
      if i :| 0 <= i < |chain| && a in chain[i].actions {
        if i > 0 {
          assert a in chain[1..][i - 1].actions;
        }
      }
    }
  }

  /** The reported list is the promised one exactly when the chains share actions only before the fork. */
  lemma OrphansAreExact(oldChain: seq<Block>, newChain: seq<Block>, k: nat)
    requires LongestCommonPrefix(oldChain, newChain, k) && HashesName(oldChain, newChain)
    ensures Actions(oldChain[k..]) == OnlyInOld(oldChain, newChain) <==> SharedOnlyBeforeFork(oldChain, newChain, k)
  {
    ReportedBeyondOrphans(oldChain, newChain, k);
    WithoutAll(Actions(oldChain[k..]), Actions(newChain));
    SharedBehindFork(oldChain, newChain, k);
  }

  lemma SharedBehindFork(oldChain: seq<Block>, newChain: seq<Block>, k: nat)
    requires k <= |oldChain|
    ensures SharedOnlyBeforeFork(oldChain, newChain, k) <==>
              forall a :: a in Actions(oldChain[k..]) ==> a !in Actions(newChain)
  {
    var reported, confirmed := Actions(oldChain[k..]), Actions(newChain);
    if SharedOnlyBeforeFork(oldChain, newChain, k) {
      forall a | a in reported
        ensures a !in confirmed
      {
        ActionsOf(oldChain[k..], a);
        var i :| 0 <= i < |oldChain[k..]| && a in oldChain[k..][i].actions;
        assert a in oldChain[k + i].actions;
      }
    } else {
      var i, a :| 0 <= i < |oldChain| && a in oldChain[i].actions && a in confirmed && i >= k;
      assert a in oldChain[k..][i - k].actions;
      ActionsOf(oldChain[k..], a);
    }
  }

  /** With no action twice in the old chain: exactly when all actions common to both chains precede the fork. */
  lemma OrphansWithoutRepetition(oldChain: seq<Block>, newChain: seq<Block>, k: nat)
    requires LongestCommonPrefix(oldChain, newChain, k) && Distinct(Actions(oldChain))
    ensures (forall a :: a in Actions(oldChain[k..]) ==> a !in Actions(newChain)) <==>
            (forall a :: a in Actions(oldChain) && a in Actions(newChain) ==> a in Actions(oldChain[..k]))
  {
    var before, after := Actions(oldChain[..k]), Actions(oldChain[k..]);
    SplitActions(oldChain, k);
    forall a | a in before
      ensures a !in after
    {
      var i :| 0 <= i < |before| && before[i] == a;
      assert Actions(oldChain)[i] == a;
      forall j | 0 <= j < |after|
        ensures after[j] != a
      {
        assert Actions(oldChain)[|before| + j] == after[j];
      }
    }
  }

  /** One join, mined in two competing blocks. */
  function RivalChains(gameId: bytes, key: bytes): (seq<Block>, seq<Block>) {
    var join := SignedAction(gameId, [], Some(0), Join(key, 0));
    ([Block([1], 1, [join])], [Block([2], 1, [join])])
  }

  /** A failing input: the new chain is accepted and confirms the one action that is reported as orphaned. */
  lemma ReconfirmedIsReported(gameId: bytes, hash: bytes, key: bytes, deadline: int, rs: RuleSet)
    requires rs.stakeAmount == 0 && rs.playerCountMax > 0
    ensures var (oldChain, newChain) := RivalChains(gameId, key);
            var join := SignedAction(gameId, [], Some(0), Join(key, 0));
            LongestCommonPrefix(oldChain, newChain, 0) && HashesName(oldChain, newChain) &&
            Run(GoRelay, InitialState(gameId, hash, deadline), rs, Confirmed(newChain)).Ok? &&
            Actions(oldChain[0..]) == [join] && join in Actions(newChain) && OnlyInOld(oldChain, newChain) == []
  {
    var (oldChain, newChain) := RivalChains(gameId, key);
    var join := SignedAction(gameId, [], Some(0), Join(key, 0));
    OneBlock(oldChain[0]);
    OneBlock(newChain[0]);
    assert oldChain[0..] == [oldChain[0]] && newChain == [newChain[0]];
    WithoutAll([join], [join]);
    var log := [Entry(join, 1)];
    assert Confirmed(newChain) == log;
    assert log[1..] == [];
    var st := InitialState(gameId, hash, deadline);
    assert Apply(GoRelay, st, join, rs, 1).Ok?;
    assert Run(GoRelay, st, rs, log) == Run(GoRelay, Apply(GoRelay, st, join, rs, 1).value, rs, []);
  }

  lemma OneBlock(b: Block)
    ensures Actions([b]) == b.actions && Confirmed([b]) == BlockEntries(b, |b.actions|)
  {
    var one := [b];
    assert one[1..] == [] && Actions(one[1..]) == [] && Confirmed(one[1..]) == [];
    assert b.actions + [] == b.actions;
  }
}
