/** The verifiable shuffle: counter-mode byte stream, rejection sampling, Fisher-Yates. */
module Shuffle {
  import opened Wrappers
  import opened Bytes
  import opened Sequences

  // ----- the byte stream -----

  /** The stream ends when the 4-byte block counter does: encodeU32LE refuses 2^32. */
  const STREAM_END: nat := 32 * U32

  type Stream = nat -> byte

  /** Byte k of the stream: byte k mod 32 of SHA-256(seed || LE32(k div 32)). */
  function StreamOf(h: Hash, seed: bytes): Stream {
    k => h(seed + LE(k / 32, 4))[k % 32]
  }

  type Blocks = nat -> Digest

  /** Block c of the counter mode is bytes 32c .. 32c+31 of the stream. */
  ghost predicate Buffers(blocks: Blocks, stream: Stream) {
    forall c: nat, i {:trigger blocks(c)[i]} :: 0 <= i < 32 ==> blocks(c)[i] == stream(32 * c + i)
  }

  class Sha256CounterPrg {
    const blocks: Blocks
    ghost const stream: Stream
    var buf: bytes
    var offset: nat
    var counter: nat

    ghost predicate Valid()
      reads this
    {
      Buffers(blocks, stream) && counter <= U32 && offset <= |buf| &&
      if counter == 0 then buf == [] else buf == blocks(counter - 1)
    }

    /** How many bytes of the stream have been consumed. */
    ghost function Position(): nat
      reads this
    {
      if counter == 0 then 0 else 32 * (counter - 1) + offset
    }

    constructor (hash: Hash, seed: bytes)
      ensures Valid() && Position() == 0 && stream == StreamOf(hash, seed)
    {
      blocks := c => hash(seed + LE(c, 4));
      stream := StreamOf(hash, seed);
      buf, offset, counter := [], 0, 0;
    }

    /** The buffered read yields the next byte of the plain stream; None is the exception at its end. */
    method NextByte() returns (b: Option<byte>)
      requires Valid()
      modifies this
      ensures Valid()
      ensures b.Some? <==> old(Position()) < STREAM_END
      ensures b.Some? ==> b.value == stream(old(Position())) && Position() == old(Position()) + 1
    {
      if offset >= |buf| {
        if counter >= U32 {
          return None;
        }
        buf := blocks(counter);
        counter := counter + 1;
        offset := 0;
      }
      assert blocks(counter - 1)[offset] == stream(32 * (counter - 1) + offset);
      b := Some(buf[offset]);
      offset := offset + 1;
    }

    /** Four reads make one little-endian word; None if the stream ends within it. */
    method NextWord(ghost words: Words) returns (w: Option<nat>)
      requires Valid() && Spells(words, stream)
      modifies this
      ensures Valid()
      ensures w.Some? <==> old(Position()) + 4 <= STREAM_END
      ensures w.Some? ==> w.value == words(old(Position())) && Position() == old(Position()) + 4
    {
      ghost var pos := Position();
      var b0 := NextByte();
      if b0.None? { return None; }
      var b1 := NextByte();
      if b1.None? { return None; }
      var b2 := NextByte();
      if b2.None? { return None; }
      var b3 := NextByte();
      if b3.None? { return None; }
      Spelt(words, stream, pos, b0.value, b1.value, b2.value, b3.value);
      w := Some(LittleEndian(b0.value, b1.value, b2.value, b3.value));
    }

    /** Rejection sampling over words. It always ends, because the stream does. */
    method DrawUniform(max: nat, ghost words: Words, ghost draw: Drawer) returns (r: Option<nat>)
      requires Valid() && Spells(words, stream) && DrawsFrom(draw, words)
      modifies this
      ensures Valid()
      ensures max >= U32 ==> r.None?
      ensures max < U32 ==> DrawnFrom(draw(old(Position()), max), r, Position())
    {
      NextDraw(draw, words, Position(), max);
      if max >= U32 {
        return None;
      }
      if max == 0 {
        return Some(0);
      }
      var bound := max + 1;
      LimitIsProduct(bound);
      var w := Sample(U32 / bound * bound, words);
      r := if w.None? then None else Some(w.value % bound);
    }

    /** The rejection loop: the next word below the limit. */
    method Sample(limit: nat, ghost words: Words) returns (r: Option<nat>)
      requires Valid() && Spells(words, stream)
      modifies this
      ensures Valid()
      ensures DrawnFrom(FirstBelow(words, old(Position()), limit), r, Position())
    {
      ghost var drawn := FirstBelow(words, Position(), limit);
      while true
        invariant Valid() && FirstBelow(words, Position(), limit) == drawn
        decreases STREAM_END - Position()
      {
        var w := NextWord(words);
        if w.None? || w.value < limit {
          return w;
        }
      }
    }
  }

  ghost predicate DrawnFrom(d: Option<(nat, nat)>, r: Option<nat>, pos: nat) {
    if d.None? then r.None? else r == Some(d.value.0) && pos == d.value.1
  }

  function LittleEndian(b0: byte, b1: byte, b2: byte, b3: byte): nat {
    b0 as int + 0x100 * b1 as int + 0x1_0000 * b2 as int + 0x100_0000 * b3 as int
  }

  function WordAt(stream: Stream, p: nat): nat {
    LittleEndian(stream(p), stream(p + 1), stream(p + 2), stream(p + 3))
  }

  type Words = nat -> nat

  /** The little-endian word at each position of the stream. */
  ghost predicate Spells(words: Words, stream: Stream) {
    forall p: nat {:trigger stream(p), words(p)} :: words(p) == WordAt(stream, p)
  }

  lemma Spelt(words: Words, stream: Stream, p: nat, b0: byte, b1: byte, b2: byte, b3: byte)
    requires Spells(words, stream)
    requires b0 == stream(p) && b1 == stream(p + 1) && b2 == stream(p + 2) && b3 == stream(p + 3)
    ensures words(p) == LittleEndian(b0, b1, b2, b3)
  {
    assert words(p) == WordAt(stream, p);
  }

  function WordsOf(stream: Stream): Words {
    p => WordAt(stream, p)
  }

  /** The largest multiple of bound that 32-bit words reach. */
  function Limit(bound: nat): nat
    requires bound > 0
  {
    U32 - U32 % bound
  }

  lemma LimitIsProduct(bound: nat)
    requires bound > 0
    ensures U32 / bound * bound == Limit(bound)
  {
  }

  /** The first word at or after pos that is below the limit, and the position behind it. */
  function FirstBelow(words: Words, pos: nat, limit: nat): Option<(nat, nat)>
    decreases STREAM_END - pos
  {
    if pos + 4 > STREAM_END then None
    else if words(pos) < limit then Some((words(pos), pos + 4))
    else FirstBelow(words, pos + 4, limit)
  }

  /** One draw from 0..max, and the position behind it. */
  function Draw(words: Words, pos: nat, max: nat): Option<(nat, nat)> {
    if max == 0 then Some((0, pos))
    else
      var w := FirstBelow(words, pos, Limit(max + 1));
      if w.None? then None else Some((w.value.0 % (max + 1), w.value.1))
  }

  type Drawer = (nat, nat) -> Option<(nat, nat)>

  ghost predicate DrawsFrom(draw: Drawer, words: Words) {
    forall pos, max {:trigger draw(pos, max), Draw(words, pos, max)} :: draw(pos, max) == Draw(words, pos, max)
  }

  lemma NextDraw(draw: Drawer, words: Words, pos: nat, max: nat)
    requires DrawsFrom(draw, words)
    ensures draw(pos, max) == Draw(words, pos, max)
  {
  }

  lemma DrawInRange(words: Words, pos: nat, max: nat)
    requires Draw(words, pos, max).Some?
    ensures Draw(words, pos, max).value.0 <= max
  {
  }

  // ----- uniformity of one draw -----

  /** How many of the words 0..n-1 reduce to v. */
  function Hits(n: nat, bound: nat, v: nat): nat
    requires bound > 0
  {
    if n == 0 then 0 else Hits(n - 1, bound, v) + if (n - 1) % bound == v then 1 else 0
  }

  lemma QuotientRemainder(q: nat, r: nat, bound: nat)
    requires r < bound
    ensures (q * bound + r) % bound == r && (q * bound + r) / bound == q
  {
    var n := q * bound + r;
    var d := n / bound - q;
    assert n == (n / bound) * bound + n % bound;
    assert (d + q) * bound == d * bound + q * bound;
    SmallMultiple(d, bound, r - n % bound);
  }

  lemma SmallMultiple(d: int, bound: int, x: int)
    requires d * bound == x && -bound < x < bound
    ensures d == 0
  {
    if d >= 1 {
      MultipleGrows(d, bound);
    } else if d <= -1 {
      MultipleGrows(-d, bound);
    }
  }

  lemma {:induction false} MultipleGrows(d: int, bound: int)
    requires d >= 1 && bound >= 0
    ensures d * bound >= bound
  {
    if d > 1 {
      MultipleGrows(d - 1, bound);
      assert d * bound == (d - 1) * bound + bound;
    }
  }

  /** Within one row of bound words, v is hit once it is passed. */
  lemma {:induction false} HitsInRow(q: nat, base: nat, r: nat, bound: nat, v: nat)
    requires base == q * bound && r <= bound && v < bound
    ensures Hits(base + r, bound, v) == Hits(base, bound, v) + if r > v then 1 else 0
    decreases r
  {
    if r > 0 {
      HitsInRow(q, base, r - 1, bound, v);
      QuotientRemainder(q, r - 1, bound);
    }
  }

  lemma {:induction false} HitsInRows(q: nat, bound: nat, v: nat)
    requires v < bound
    ensures Hits(q * bound, bound, v) == q
  {
    if q > 0 {
      HitsInRows(q - 1, bound, v);
      HitsInRow(q - 1, (q - 1) * bound, bound, bound, v);
      assert q * bound == (q - 1) * bound + bound;
    }
  }

  lemma HitsExactly(q: nat, r: nat, bound: nat, v: nat)
    requires r < bound && v < bound
    ensures Hits(q * bound + r, bound, v) == q + if r > v then 1 else 0
  {
    HitsInRows(q, bound, v);
    HitsInRow(q, q * bound, r, bound, v);
  }

  lemma RowsFill(q: nat, bound: nat, limit: nat, v: nat)
    requires limit == q * bound && v < bound
    ensures limit % bound == 0 && limit / bound == q && Hits(limit, bound, v) == q
  {
    QuotientRemainder(q, 0, bound);
    HitsExactly(q, 0, bound, v);
  }

  lemma MoreThanHalf(q: nat, bound: nat, r: nat)
    requires q * bound + r == U32 && r < bound <= U32
    ensures 2 * (q * bound) > U32
  {
    if q == 0 {
      assert false;
    }
    assert q * bound == (q - 1) * bound + bound;
    assert (q - 1) * bound >= 0;
  }

  // ----- Fisher-Yates -----

  function Swap(deck: seq<int>, i: nat, j: nat): (r: seq<int>)
    requires i < |deck| && j < |deck|
    ensures |r| == |deck|
  {
    deck[i := deck[j]][j := deck[i]]
  }

  /** Draw k is for index |draws| - k, so it must not exceed that index. */
  predicate ValidDraws(draws: seq<nat>) {
    forall k :: 0 <= k < |draws| ==> draws[k] <= |draws| - k
  }

  lemma DrawsTail(draws: seq<nat>)
    requires ValidDraws(draws) && draws != []
    ensures ValidDraws(draws[1..])
  {
    forall k | 0 <= k < |draws[1..]|
      ensures draws[1..][k] <= |draws[1..]| - k
    {
      assert draws[k + 1] <= |draws| - (k + 1);
    }
  }

  /** The shuffle loop on given draws, from index |draws| down to 1. */
  function Permute(deck: seq<int>, draws: seq<nat>): (r: seq<int>)
    requires ValidDraws(draws) && |draws| < |deck|
    ensures |r| == |deck|
    decreases |draws|
  {
    if draws == [] then deck
    else
      DrawsTail(draws);
      Permute(Swap(deck, |draws|, draws[0]), draws[1..])
  }

  function Identity(n: nat): (r: seq<int>)
    ensures |r| == n && forall i :: 0 <= i < n ==> r[i] == i
  {
    seq(n, i => i)
  }

  /** Read the draws back from a finished deck: where each index's card stood before its swap. */
  function Recover(deck: seq<int>, p: seq<int>, i: nat): seq<nat>
    requires |p| == |deck| && i < |deck|
    decreases i
  {
    if i == 0 then []
    else
      var j := IndexOf(deck, p[i]);
      if j < 0 then seq(i, _ => 0) else [j] + Recover(Swap(deck, i, j), p, i - 1)
  }

  lemma SwapMultiset(deck: seq<int>, i: nat, j: nat)
    requires i < |deck| && j < |deck|
    ensures multiset(Swap(deck, i, j)) == multiset(deck)
  {
  }

  /** Only positions up to |draws| move. */
  lemma {:induction false} PermuteFrame(deck: seq<int>, draws: seq<nat>)
    requires ValidDraws(draws) && |draws| < |deck|
    ensures multiset(Permute(deck, draws)) == multiset(deck)
    ensures forall k :: |draws| < k < |deck| ==> Permute(deck, draws)[k] == deck[k]
    decreases |draws|
  {
    if draws != [] {
      DrawsTail(draws);
      var next := Swap(deck, |draws|, draws[0]);
      SwapMultiset(deck, |draws|, draws[0]);
      PermuteFrame(next, draws[1..]);
    }
  }

  lemma SwapDistinct(deck: seq<int>, i: nat, j: nat)
    requires i < |deck| && j < |deck| && Distinct(deck)
    ensures Distinct(Swap(deck, i, j))
  {
  }

  lemma IndexOfDistinct(deck: seq<int>, j: nat)
    requires j < |deck| && Distinct(deck)
    ensures IndexOf(deck, deck[j]) == j
  {
    var r := IndexOf(deck, deck[j]);
    assert deck[j] in deck;
  }

  /** Recovering undoes shuffling, so different draws give different decks. */
  lemma {:induction false} RecoverUndoesPermute(deck: seq<int>, draws: seq<nat>)
    requires ValidDraws(draws) && |draws| < |deck| && Distinct(deck)
    ensures Recover(deck, Permute(deck, draws), |draws|) == draws
    decreases |draws|
  {
    if draws != [] {
      DrawsTail(draws);
      var i, j := |draws|, draws[0];
      var next := Swap(deck, i, j);
      SwapDistinct(deck, i, j);
      PermuteFrame(next, draws[1..]);
      assert Permute(deck, draws)[i] == next[i] == deck[j];
      IndexOfDistinct(deck, j);
      RecoverUndoesPermute(next, draws[1..]);
      assert draws == [draws[0]] + draws[1..];
    }
  }

  /** Same cards, and equal above i: then card i of p stands at or below i in the deck. */
  lemma CardBelow(deck: seq<int>, p: seq<int>, i: nat)
    requires |p| == |deck| && i < |deck| && multiset(p) == multiset(deck) && Distinct(deck)
    requires forall k :: i < k < |deck| ==> deck[k] == p[k]
    ensures 0 <= IndexOf(deck, p[i]) <= i
  {
    assert p[i] in multiset(p);
    assert p[i] in deck;
    var j := IndexOf(deck, p[i]);
    if j > i {
      DistinctMultiset(deck);
      OnceOnly(p, i, j);
    }
  }

  /** Shuffling with the recovered draws reaches any rearrangement of the deck. */
  lemma {:induction false} PermuteUndoesRecover(deck: seq<int>, p: seq<int>, i: nat)
    requires |p| == |deck| && i < |deck| && multiset(p) == multiset(deck) && Distinct(deck)
    requires forall k :: i < k < |deck| ==> deck[k] == p[k]
    ensures var draws := Recover(deck, p, i);
            |draws| == i && ValidDraws(draws) && Permute(deck, draws) == p
    decreases i
  {
    if i == 0 {
      LastCardForced(deck, p);
    } else {
      CardBelow(deck, p, i);
      var j := IndexOf(deck, p[i]);
      var next := Swap(deck, i, j);
      SwapDistinct(deck, i, j);
      SwapMultiset(deck, i, j);
      PermuteUndoesRecover(next, p, i - 1);
      var rest := Recover(next, p, i - 1);
      var draws := Recover(deck, p, i);
      assert draws[1..] == rest;
      forall k | 0 <= k < |draws|
        ensures draws[k] <= |draws| - k
      {
        if k > 0 {
          assert rest[k - 1] <= |rest| - (k - 1);
        }
      }
    }
  }

  lemma LastCardForced(deck: seq<int>, p: seq<int>)
    requires |p| == |deck| > 0 && multiset(p) == multiset(deck)
    requires forall k :: 0 < k < |deck| ==> deck[k] == p[k]
    ensures deck == p
  {
    assert deck == [deck[0]] + deck[1..] && p == [p[0]] + p[1..];
    assert deck[1..] == p[1..];
    assert multiset(deck) - multiset(deck[1..]) == multiset{deck[0]};
    assert multiset(p) - multiset(p[1..]) == multiset{p[0]};
    assert deck[0] in multiset{p[0]};
  }

  ghost predicate IsPermutation(p: seq<int>, n: nat) {
    |p| == n && multiset(p) == multiset(Identity(n))
  }

  /**
   * For every deck size the loop is a bijection between draw vectors and permutations: every result
   * is a permutation and determines its draws, and every permutation comes from its recovered draws.
   */
  lemma ShuffleIsBijection(n: nat, draws: seq<nat>, p: seq<int>)
    requires n > 0 && |draws| == n - 1 && ValidDraws(draws) && IsPermutation(p, n)
    ensures IsPermutation(Permute(Identity(n), draws), n)
    ensures Recover(Identity(n), Permute(Identity(n), draws), n - 1) == draws
    ensures var back := Recover(Identity(n), p, n - 1);
            |back| == n - 1 && ValidDraws(back) && Permute(Identity(n), back) == p
  {
    PermuteFrame(Identity(n), draws);
    RecoverUndoesPermute(Identity(n), draws);
    PermuteUndoesRecover(Identity(n), p, n - 1);
  }

  // ----- the whole shuffle -----

  ghost predicate InRange(draw: Drawer) {
    forall pos, max {:trigger draw(pos, max)} :: draw(pos, max).Some? ==> draw(pos, max).value.0 <= max
  }

  /** The draws for indices i, i-1, ..., 1, from stream position pos on. */
  function Draws(draw: Drawer, pos: nat, i: nat): Option<seq<nat>>
    decreases i
  {
    if i == 0 then Some([])
    else
      var d := draw(pos, i);
      if d.None? then None
      else
        var rest := Draws(draw, d.value.1, i - 1);
        if rest.None? then None else Some([d.value.0] + rest.value)
  }

  lemma {:induction false} DrawsAreValid(draw: Drawer, pos: nat, i: nat)
    requires InRange(draw) && Draws(draw, pos, i).Some?
    ensures |Draws(draw, pos, i).value| == i && ValidDraws(Draws(draw, pos, i).value)
    decreases i
  {
    if i > 0 {
      var d := draw(pos, i);
      DrawsAreValid(draw, d.value.1, i - 1);
      var rest, draws := Draws(draw, d.value.1, i - 1).value, Draws(draw, pos, i).value;
      forall k | 0 <= k < |draws|
        ensures draws[k] <= |draws| - k
      {
        if k > 0 {
          assert rest[k - 1] <= |rest| - (k - 1);
        }
      }
    }
  }

  /** The result of the shuffle loop continued from a given index, stream position and deck. */
  ghost function Remaining(draw: Drawer, pos: nat, i: nat, deck: seq<int>): Option<seq<int>>
    requires i < |deck| && InRange(draw)
  {
    var draws := Draws(draw, pos, i);
    if draws.None? then None
    else
      DrawsAreValid(draw, pos, i);
      Some(Permute(deck, draws.value))
  }

  lemma RemainingStep(draw: Drawer, pos: nat, i: nat, deck: seq<int>, r: Option<nat>, next: nat)
    requires 0 < i < |deck| && InRange(draw) && DrawnFrom(draw(pos, i), r, next)
    ensures r.None? ==> Remaining(draw, pos, i, deck).None?
    ensures r.Some? ==>
              r.value <= i &&
              Remaining(draw, pos, i, deck) == Remaining(draw, next, i - 1, Swap(deck, i, r.value))
  {
    if r.Some? {
      var rest := Draws(draw, next, i - 1);
      if rest.Some? {
        DrawsAreValid(draw, pos, i);
        DrawsAreValid(draw, next, i - 1);
        assert Draws(draw, pos, i).value[1..] == rest.value;
      }
    }
  }

  function DrawerOf(h: Hash, seed: bytes): Drawer {
    (pos, max) => Draw(WordsOf(StreamOf(h, seed)), pos, max)
  }

  lemma DrawerInRange(h: Hash, seed: bytes)
    ensures InRange(DrawerOf(h, seed))
  {
    forall pos, max | DrawerOf(h, seed)(pos, max).Some?
      ensures DrawerOf(h, seed)(pos, max).value.0 <= max
    {
      DrawInRange(WordsOf(StreamOf(h, seed)), pos, max);
    }
  }

  /** The shuffled deck, or None where the code throws. */
  function ShuffledDeck(h: Hash, combined: bytes, deckSize: nat): (r: Option<seq<int>>)
    ensures r.Some? ==> IsPermutation(r.value, deckSize) && deckSize in {52, 54}
  {
    if (deckSize != 52 && deckSize != 54) || |combined| != 32 then None
    else
      var draws := Draws(DrawerOf(h, combined), 0, deckSize - 1);
      if draws.None? then None
      else
        DrawerInRange(h, combined);
        DrawsAreValid(DrawerOf(h, combined), 0, deckSize - 1);
        PermuteFrame(Identity(deckSize), draws.value);
        Some(Permute(Identity(deckSize), draws.value))
  }

  lemma SpellsOut(stream: Stream)
    ensures Spells(WordsOf(stream), stream)
  {
  }

  lemma DrawerDraws(h: Hash, seed: bytes)
    ensures DrawsFrom(DrawerOf(h, seed), WordsOf(StreamOf(h, seed)))
  {
  }

  lemma ShuffledIsRemaining(h: Hash, combined: bytes, deckSize: nat)
    requires deckSize in {52, 54} && |combined| == 32 && InRange(DrawerOf(h, combined))
    ensures Remaining(DrawerOf(h, combined), 0, deckSize - 1, Identity(deckSize)) == ShuffledDeck(h, combined, deckSize)
  {
  }

  /** One turn of the shuffle loop: draw an index, swap in place. */
  method DrawAndSwap(prg: Sha256CounterPrg, deck: array<int>, i: nat, ghost words: Words, ghost draw: Drawer)
    returns (ok: bool)
    requires prg.Valid() && Spells(words, prg.stream) && 0 < i < deck.Length <= 54
    requires InRange(draw) && DrawsFrom(draw, words)
    modifies prg, deck
    ensures prg.Valid()
    ensures Remaining(draw, old(prg.Position()), i, old(deck[..]))
         == if ok then Remaining(draw, prg.Position(), i - 1, deck[..]) else None
  {
    ghost var before, pos := deck[..], prg.Position();
    var j := prg.DrawUniform(i, words, draw);
    RemainingStep(draw, pos, i, before, j, prg.Position());
    if j.None? {
      return false;
    }
    deck[i], deck[j.value] := deck[j.value], deck[i];
    assert deck[..] == Swap(before, i, j.value);
    return true;
  }

  method FisherYates(prg: Sha256CounterPrg, deck: array<int>, ghost words: Words, ghost draw: Drawer) returns (ok: bool)
    requires prg.Valid() && Spells(words, prg.stream) && 0 < deck.Length <= 54
    requires InRange(draw) && DrawsFrom(draw, words)
    modifies prg, deck
    ensures Remaining(draw, old(prg.Position()), deck.Length - 1, old(deck[..])) == if ok then Some(deck[..]) else None
  {
    ghost var total := Remaining(draw, prg.Position(), deck.Length - 1, deck[..]);
    var i := deck.Length - 1;
    while i >= 1
      invariant 0 <= i < deck.Length && prg.Valid()
      invariant Remaining(draw, prg.Position(), i, deck[..]) == total
    {
      ok := DrawAndSwap(prg, deck, i, words, draw);
      if !ok {
        return;
      }
      i := i - 1;
    }
    return true;
  }

  /** Both packages' shuffle of a deck by a combined-entropy seed. */
  method ShuffleCanonicalDeck(h: Hash, combined: bytes, deckSize: nat) returns (r: Option<seq<int>>)
    ensures r == ShuffledDeck(h, combined, deckSize)
  {
    if deckSize != 52 && deckSize != 54 {
      return None;
    }
    var deck := new int[deckSize](i => i);
    assert deck[..] == Identity(deckSize);
    if |combined| != 32 {
      return None;
    }
    var prg := new Sha256CounterPrg(h, combined);
    DrawerInRange(h, combined);
    DrawerDraws(h, combined);
    SpellsOut(prg.stream);
    ShuffledIsRemaining(h, combined, deckSize);
    var ok := FisherYates(prg, deck, WordsOf(prg.stream), DrawerOf(h, combined));
    if !ok {
      return None;
    }
    return Some(deck[..]);
  }
}
