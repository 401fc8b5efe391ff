/** What the shuffle does to a deck, said without its own functions: stream bytes, fair draws, and the swaps. */
module FairShuffle {
  import opened Wrappers
  import opened Bytes
  import opened Shuffle

  // ----- the stream and its words -----

  /** Block c of the stream is the hash of the seed and c in four bytes, the low byte first. */
  lemma StreamBytes(h: Hash, seed: bytes, c: nat, i: nat)
    requires c < U32 && i < 32
    ensures StreamOf(h, seed)(32 * c + i)
         == h(seed + [c % 0x100, c / 0x100 % 0x100, c / 0x1_0000 % 0x100, c / 0x100_0000 % 0x100])[i]
  {
    FourBytes(c);
    assert (32 * c + i) / 32 == c && (32 * c + i) % 32 == i;
  }

  /** A word is the number whose four bytes, low byte first, are the next four of the stream. */
  lemma WordBytes(stream: Stream, p: nat)
    ensures var w := WordsOf(stream)(p);
            w < U32 && w % 0x100 == stream(p) && w / 0x100 % 0x100 == stream(p + 1) &&
            w / 0x100 / 0x100 % 0x100 == stream(p + 2) && w / 0x100 / 0x100 / 0x100 == stream(p + 3)
  {
    var b0, b1, b2, b3 := stream(p), stream(p + 1), stream(p + 2), stream(p + 3);
    Digit(b2, b3);
    Digit(b1, b2 as int + 0x100 * b3 as int);
    Digit(b0, b1 as int + 0x100 * (b2 as int + 0x100 * b3 as int));
  }

  lemma Digit(low: byte, rest: nat)
    ensures (low as int + 0x100 * rest) % 0x100 == low && (low as int + 0x100 * rest) / 0x100 == rest
  {
  }

  // ----- one draw -----

  /** The value a draw from 0..max gives at once when the next word of the stream is w. */
  function Given(w: nat, max: nat): Option<nat> {
    var d := Draw(_ => w, 0, max);
    if d.Some? && d.value.1 == 4 then Some(d.value.0) else None
  }

  lemma AtOnce(words: Words, pos: nat, max: nat)
    requires 1 <= max < U32 && pos + 4 <= STREAM_END
    ensures Draw(words, pos, max) == if words(pos) < Limit(max + 1) then Some((words(pos) % (max + 1), pos + 4))
                                     else Draw(words, pos + 4, max)
  {
  }

  lemma {:induction false} MovesOn(words: Words, pos: nat, max: nat)
    requires 1 <= max < U32 && Draw(words, pos, max).Some?
    ensures Draw(words, pos, max).value.1 >= pos + 4
    decreases STREAM_END - pos
  {
    if pos + 4 <= STREAM_END {
      AtOnce(words, pos, max);
      if words(pos) >= Limit(max + 1) {
        MovesOn(words, pos + 4, max);
      }
    }
  }

  lemma GivenIs(w: nat, max: nat)
    requires 1 <= max < U32
    ensures Given(w, max) == if w < Limit(max + 1) then Some(w % (max + 1)) else None
  {
    var words: Words := _ => w;
    AtOnce(words, 0, max);
    if w >= Limit(max + 1) && Draw(words, 4, max).Some? {
      MovesOn(words, 4, max);
    }
  }

  /** On any stream the next word decides alone: it gives its value, or it is passed over. */
  lemma NextWordDecides(words: Words, pos: nat, max: nat, v: nat)
    requires 1 <= max < U32 && pos + 4 <= STREAM_END
    ensures Draw(words, pos, max) == Some((v, pos + 4)) <==> Given(words(pos), max) == Some(v)
    ensures Given(words(pos), max).None? ==> Draw(words, pos, max) == Draw(words, pos + 4, max)
  {
    GivenIs(words(pos), max);
    AtOnce(words, pos, max);
    if words(pos) >= Limit(max + 1) && Draw(words, pos + 4, max).Some? {
      MovesOn(words, pos + 4, max);
    }
  }

  /** w is in row q of the rows of max + 1 words, at place v, and the row ends within 2^32. */
  ghost predicate InWholeRow(w: nat, max: nat, v: nat, q: nat) {
    v <= max && w == q * (max + 1) + v && q * (max + 1) + max + 1 <= U32
  }

  /** The 2^32 words in rows of bound words, and what is left over. */
  lemma LimitRows(bound: nat) returns (q: nat, r: nat)
    requires 0 < bound <= U32
    ensures Limit(bound) == q * bound && q * bound + r == U32 && r < bound
  {
    q, r := U32 / bound, U32 % bound;
    LimitIsProduct(bound);
  }

  /** A word gives its place in its row, if the row is complete. */
  lemma GivenByRow(w: nat, max: nat, v: nat)
    requires 1 <= max < U32
    ensures Given(w, max) == Some(v) <==> exists q :: InWholeRow(w, max, v, q)
  {
    if Given(w, max) == Some(v) {
      var q := RowOf(w, max, v);
    }
    if q :| InWholeRow(w, max, v, q) {
      WholeRowGives(w, max, v, q);
    }
  }

  lemma RowOf(w: nat, max: nat, v: nat) returns (q: nat)
    requires 1 <= max < U32 && Given(w, max) == Some(v)
    ensures InWholeRow(w, max, v, q)
  {
    GivenIs(w, max);
    q := w / (max + 1);
    var rows, _ := LimitRows(max + 1);
    RowBelow(q, v, rows, max + 1);
  }

  lemma WholeRowGives(w: nat, max: nat, v: nat, q: nat)
    requires 1 <= max < U32 && InWholeRow(w, max, v, q)
    ensures Given(w, max) == Some(v)
  {
    GivenIs(w, max);
    QuotientRemainder(q, v, max + 1);
    var rows, r := LimitRows(max + 1);
    RowWithin(q, rows, r, max + 1);
  }

  lemma Rows(a: nat, b: nat, bound: nat)
    requires a <= b
    ensures a * bound <= b * bound
  {
    assert b * bound == a * bound + (b - a) * bound;
  }

  /** A word below the last row's end is in a complete row. */
  lemma RowBelow(q: nat, v: nat, rows: nat, bound: nat)
    requires v < bound && q * bound + v < rows * bound <= U32
    ensures q * bound + bound <= U32
  {
    if q < rows {
      Rows(q + 1, rows, bound);
      assert (q + 1) * bound == q * bound + bound;
    } else {
      Rows(rows, q, bound);
      assert false;
    }
  }

  lemma RowWithin(q: nat, rows: nat, r: nat, bound: nat)
    requires rows * bound + r == U32 && r < bound && q * bound + bound <= U32
    ensures q * bound + bound <= rows * bound
  {
    if q < rows {
      Rows(q + 1, rows, bound);
      assert (q + 1) * bound == q * bound + bound;
    } else {
      Rows(rows, q, bound);
      assert false;
    }
  }

  /** How many of the words below n give v. */
  function WordsGiving(n: nat, max: nat, v: nat): nat {
    if n == 0 then 0 else WordsGiving(n - 1, max, v) + if Given(n - 1, max) == Some(v) then 1 else 0
  }

  lemma {:induction false} GivingIsHitting(n: nat, max: nat, v: nat)
    requires 1 <= max < U32
    ensures WordsGiving(n, max, v) == Hits(if n < Limit(max + 1) then n else Limit(max + 1), max + 1, v)
  {
    if n > 0 {
      GivingIsHitting(n - 1, max, v);
      GivenIs(n - 1, max);
    }
  }

  /** How many of the words below n give any of the values below k. */
  function WordsGivingBelow(n: nat, max: nat, k: nat): nat {
    if k == 0 then 0 else WordsGivingBelow(n, max, k - 1) + WordsGiving(n, max, k - 1)
  }

  lemma CountPerValue(n: nat, max: nat, v: nat, q: nat)
    requires v <= max && 1 <= max < U32 && Limit(max + 1) == q * (max + 1) <= n
    ensures WordsGiving(n, max, v) == q
  {
    GivingIsHitting(n, max, v);
    RowsFill(q, max + 1, Limit(max + 1), v);
  }

  lemma {:induction false} SumOfCounts(n: nat, max: nat, k: nat, q: nat)
    requires k <= max + 1 && 1 <= max < U32 && Limit(max + 1) == q * (max + 1) <= n
    ensures WordsGivingBelow(n, max, k) == q * k
  {
    if k > 0 {
      SumOfCounts(n, max, k - 1, q);
      CountPerValue(n, max, k - 1, q);
      assert q * k == q * (k - 1) + q;
    }
  }

  /**
   * A draw is exactly uniform: of all 2^32 next words each value from 0 to max is given by the same number,
   * these numbers add up to the largest multiple of max + 1 that is at most 2^32, and that is more than half.
   */
  lemma DrawIsUniform(n: nat, max: nat, v: nat)
    requires n == U32 && v <= max && 1 <= max < U32
    ensures WordsGiving(n, max, v) == WordsGiving(n, max, 0)
    ensures var all := WordsGivingBelow(n, max, max + 1);
            all == WordsGiving(n, max, 0) * (max + 1) && all <= n < all + (max + 1) && 2 * all > n
  {
    var q, r := LimitRows(max + 1);
    CountPerValue(n, max, v, q);
    CountPerValue(n, max, 0, q);
    SumOfCounts(n, max, max + 1, q);
    MoreThanHalf(q, max + 1, r);
  }

  // ----- the swaps -----

  /** Draw k is made at position ps[k] for index |draws| - k and leaves the stream at ps[k + 1]. */
  ghost predicate DrawTrace(draw: Drawer, ps: seq<nat>, draws: seq<nat>) {
    |ps| == |draws| + 1 &&
    forall k :: 0 <= k < |draws| ==> draw(ps[k], |draws| - k) == Some((draws[k], ps[k + 1]))
  }

  /** b is a with the entries at i and j exchanged. */
  ghost predicate Exchanged(a: seq<int>, b: seq<int>, i: nat, j: nat) {
    |a| == |b| && i < |a| && j < |a| && b[i] == a[j] && b[j] == a[i] &&
    forall k :: 0 <= k < |a| && k != i && k != j ==> b[k] == a[k]
  }

  /** The decks of the loop: swap k exchanges entry |draws| - k with the drawn one. */
  ghost predicate SwapTrace(decks: seq<seq<int>>, draws: seq<nat>) {
    |decks| == |draws| + 1 &&
    forall k :: 0 <= k < |draws| ==> Exchanged(decks[k], decks[k + 1], |draws| - k, draws[k])
  }

  lemma {:induction false} TraceOfDraws(draw: Drawer, pos: nat, i: nat) returns (ps: seq<nat>)
    requires Draws(draw, pos, i).Some?
    ensures DrawTrace(draw, ps, Draws(draw, pos, i).value) && ps[0] == pos && |ps| == i + 1
    decreases i
  {
    var draws := Draws(draw, pos, i).value;
    if i == 0 {
      ps := [pos];
    } else {
      var next := draw(pos, i).value.1;
      var rest := TraceOfDraws(draw, next, i - 1);
      ps := [pos] + rest;
      PrependDraw(draw, pos, draws, Draws(draw, next, i - 1).value, rest);
    }
  }

  lemma PrependDraw(draw: Drawer, pos: nat, draws: seq<nat>, more: seq<nat>, ps: seq<nat>)
    requires DrawTrace(draw, ps, more) && |draws| == |more| + 1 && draws[1..] == more
    requires draw(pos, |draws|) == Some((draws[0], ps[0]))
    ensures DrawTrace(draw, [pos] + ps, draws)
  {
    forall k | 0 <= k < |draws|
      ensures draw(([pos] + ps)[k], |draws| - k) == Some((draws[k], ([pos] + ps)[k + 1]))
    {
      if k > 0 {
        assert draws[k] == more[k - 1] && |draws| - k == |more| - (k - 1);
        assert draw(ps[k - 1], |more| - (k - 1)) == Some((more[k - 1], ps[k]));
      }
    }
  }

  /** Only one list of draws has a trace from a position. */
  lemma {:induction false} DrawsOfTrace(draw: Drawer, ps: seq<nat>, draws: seq<nat>)
    requires DrawTrace(draw, ps, draws)
    ensures Draws(draw, ps[0], |draws|) == Some(draws)
    decreases |draws|
  {
    if draws != [] {
      assert draw(ps[0], |draws| - 0) == Some((draws[0], ps[1]));
      forall k | 0 <= k < |draws[1..]|
        ensures draw(ps[1..][k], |draws[1..]| - k) == Some((draws[1..][k], ps[1..][k + 1]))
      {
        assert draw(ps[k + 1], |draws| - (k + 1)) == Some((draws[k + 1], ps[k + 2]));
      }
      DrawsOfTrace(draw, ps[1..], draws[1..]);
      assert draws == [draws[0]] + draws[1..];
    }
  }

  lemma {:induction false} TraceOfSwaps(deck: seq<int>, draws: seq<nat>) returns (decks: seq<seq<int>>)
    requires ValidDraws(draws) && |draws| < |deck|
    ensures SwapTrace(decks, draws) && decks[0] == deck && decks[|draws|] == Permute(deck, draws)
    decreases |draws|
  {
    if draws == [] {
      decks := [deck];
    } else {
      DrawsTail(draws);
      var next := Swap(deck, |draws|, draws[0]);
      var rest := TraceOfSwaps(next, draws[1..]);
      decks := [deck] + rest;
      forall k | 0 <= k < |draws|
        ensures Exchanged(decks[k], decks[k + 1], |draws| - k, draws[k])
      {
        if k > 0 {
          assert Exchanged(rest[k - 1], rest[k], |draws[1..]| - (k - 1), draws[1..][k - 1]);
        }
      }
    }
  }

  lemma SwapIsExchange(a: seq<int>, b: seq<int>, i: nat, j: nat)
    requires Exchanged(a, b, i, j)
    ensures b == Swap(a, i, j)
  {
  }

  lemma {:induction false} SwapsOfTrace(decks: seq<seq<int>>, draws: seq<nat>)
    requires SwapTrace(decks, draws) && ValidDraws(draws) && |draws| < |decks[0]|
    ensures decks[|draws|] == Permute(decks[0], draws)
    decreases |draws|
  {
    if draws != [] {
      DrawsTail(draws);
      assert Exchanged(decks[0], decks[1], |draws| - 0, draws[0]);
      SwapIsExchange(decks[0], decks[1], |draws|, draws[0]);
      forall k | 0 <= k < |draws[1..]|
        ensures Exchanged(decks[1..][k], decks[1..][k + 1], |draws[1..]| - k, draws[1..][k])
      {
        assert Exchanged(decks[k + 1], decks[k + 2], |draws| - (k + 1), draws[k + 1]);
      }
      SwapsOfTrace(decks[1..], draws[1..]);
    }
  }

  /** The run of the loop from the ordered deck: where each draw was made, what it gave, and the decks between. */
  ghost predicate ShuffleRun(
    h: Hash, combined: bytes, n: nat, ps: seq<nat>, draws: seq<nat>, decks: seq<seq<int>>, deck: seq<int>)
  {
    |draws| + 1 == n && DrawTrace(DrawerOf(h, combined), ps, draws) && ps[0] == 0 && SwapTrace(decks, draws) &&
    |decks[0]| == n && (forall i :: 0 <= i < n ==> decks[0][i] == i) && decks[n - 1] == deck
  }

  lemma ShuffleHasRun(h: Hash, combined: bytes, n: nat)
    returns (ps: seq<nat>, draws: seq<nat>, decks: seq<seq<int>>)
    requires ShuffledDeck(h, combined, n).Some?
    ensures ShuffleRun(h, combined, n, ps, draws, decks, ShuffledDeck(h, combined, n).value)
  {
    var draw := DrawerOf(h, combined);
    draws := Draws(draw, 0, n - 1).value;
    ps := TraceOfDraws(draw, 0, n - 1);
    DrawerInRange(h, combined);
    DrawsAreValid(draw, 0, n - 1);
    decks := TraceOfSwaps(Identity(n), draws);
  }

  /** The shuffle succeeds with a deck exactly when the loop has a run from the ordered deck to it. */
  lemma ShuffleIsItsRun(h: Hash, combined: bytes, n: nat, deck: seq<int>)
    requires n in {52, 54} && |combined| == 32
    ensures ShuffledDeck(h, combined, n) == Some(deck) <==>
              exists ps, draws, decks :: ShuffleRun(h, combined, n, ps, draws, decks, deck)
  {
    if ShuffledDeck(h, combined, n) == Some(deck) {
      var ps, draws, decks := ShuffleHasRun(h, combined, n);
    }
    if ps, draws, decks :| ShuffleRun(h, combined, n, ps, draws, decks, deck) {
      RunIsShuffle(h, combined, n, ps, draws, decks, deck);
    }
  }

  lemma RunIsShuffle(
    h: Hash, combined: bytes, n: nat, ps: seq<nat>, draws: seq<nat>, decks: seq<seq<int>>, deck: seq<int>)
    requires n in {52, 54} && |combined| == 32 && ShuffleRun(h, combined, n, ps, draws, decks, deck)
    ensures ShuffledDeck(h, combined, n) == Some(deck)
  {
    DrawsOfTrace(DrawerOf(h, combined), ps, draws);
    ValidRun(h, combined, n, draws);
    SwapsOfTrace(decks, draws);
    assert decks[0] == Identity(n);
  }

  lemma ValidRun(h: Hash, combined: bytes, n: nat, draws: seq<nat>)
    requires |draws| + 1 == n && Draws(DrawerOf(h, combined), 0, |draws|) == Some(draws)
    ensures ValidDraws(draws)
  {
    DrawerInRange(h, combined);
    DrawsAreValid(DrawerOf(h, combined), 0, |draws|);
  }

  /** Other sizes and seeds of another length are refused. */
  lemma ShuffleRefuses(h: Hash, combined: bytes, n: nat)
    requires n !in {52, 54} || |combined| != 32
    ensures ShuffledDeck(h, combined, n).None?
  {
  }
}
