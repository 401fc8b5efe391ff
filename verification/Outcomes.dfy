/** The outcome of a round by the ranks of its three cards. */
module Outcomes {
  import opened Protocol
  import opened Engine

  /** r is the rank of ordinal n: n mod 13, with the sign of n for the negative ordinals no deck has. */
  predicate IsRank(n: int, r: int) {
    -13 < r < 13 && (n - r) % 13 == 0 && (r > 0 ==> n > 0) && (r < 0 ==> n < 0)
  }

  lemma RankOfDeckCard(n: nat)
    ensures IsRank(n, n % 13)
  {
  }

  lemma RankIsRem13(n: int, r: int)
    requires IsRank(n, r)
    ensures Rem13(n) == r
  {
  }

  /** The three cards have these ranks, in the order they were shown. */
  predicate Ranks(cards: seq<RevealedCard>, r1: int, r2: int, r3: int) {
    |cards| == 3 && IsRank(cards[0].ordinal, r1) && IsRank(cards[1].ordinal, r2) && IsRank(cards[2].ordinal, r3)
  }

  /** Equal ranks and neighbours pay a penalty; otherwise the third card wins strictly between the first two. */
  lemma OutcomeByRanks(cards: seq<RevealedCard>, r1: int, r2: int, r3: int)
    requires Ranks(cards, r1, r2, r3)
    ensures var lo, hi := if r1 < r2 then r1 else r2, if r1 < r2 then r2 else r1;
            var outcome := Classify(cards);
            (outcome == EqualPenalty <==> hi == lo) &&
            (outcome == ConsecutivePenalty <==> hi == lo + 1) &&
            (outcome == Win <==> lo < r3 < hi) &&
            (outcome == Loss <==> hi > lo + 1 && !(lo < r3 < hi)) && outcome != PassOutcome
  {
    RankIsRem13(cards[0].ordinal, r1);
    RankIsRem13(cards[1].ordinal, r2);
    RankIsRem13(cards[2].ordinal, r3);
  }

  /** The first two cards only span an interval: their order does not matter. */
  lemma FirstTwoCommute(a: RevealedCard, b: RevealedCard, c: RevealedCard)
    ensures Classify([a, b, c]) == Classify([b, a, c])
  {
  }

  /** What the acting player gains from these ranks, whole pot for the bet. */
  function GainByRanks(r1: int, r2: int, r3: int, bet: int, rules: SettlementRules): int {
    if r1 == r2 then -rules.equalPenalty
    else if r1 == r2 + 1 || r2 == r1 + 1 then -rules.consecutivePenalty
    else if r1 < r3 < r2 || r2 < r3 < r1 then bet * rules.winMultiplier
    else -(bet * rules.lossMultiplier)
  }

  lemma TransferByRanks(cards: seq<RevealedCard>, r1: int, r2: int, r3: int, bet: int, rules: SettlementRules)
    requires Ranks(cards, r1, r2, r3)
    ensures var t, gain := ValueTransfer(Classify(cards), bet, rules), GainByRanks(r1, r2, r3, bet, rules);
            t.playerDelta == gain && t.potDelta == -gain
  {
    OutcomeByRanks(cards, r1, r2, r3);
  }
}
