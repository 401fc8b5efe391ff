/** The rule-set hash binds every field: also where decoding would not give the rule set back. */
module RuleSetBinding {
  import opened Bytes
  import opened Concatenation
  import opened Canonical
  import opened Sorting
  import opened Protocol
  import opened RuleSetCodec
  import opened RuleSetDecoder

  lemma SameLengthSplits(a: bytes, b: bytes)
    requires |a| == |b|
    ensures Splits(a, b)
  {
    forall u, v | a + u == b + v
      ensures a == b
    {
      SplitSameLength(a, u, b, v);
    }
  }

  lemma DefaultPairsShort(m: map<bytes, bytes>)
    requires SafeDefaults(m)
    ensures forall p :: p in SortedPairs(m) ==> ShortPair(p)
  {
    SafePairs(m);
  }

  lemma MappedSelf<T>(s: seq<T>)
    ensures Mapped((x: T) => x, s) == s
  {
  }

  /** Default-action records are told apart by their bytes, whatever follows. */
  lemma DefaultsBind(m: map<bytes, bytes>, n: map<bytes, bytes>, r: bytes, s: bytes)
    requires SafeDefaults(m) && SafeDefaults(n) && DefaultsBytes(m) + r == DefaultsBytes(n) + s
    ensures m == n
  {
    DefaultPairsShort(m);
    DefaultPairsShort(n);
    SortedKeysFacts(m);
    SortedKeysFacts(n);
    PairsDelimit();
    ArrayDelimits(EncodePair, ShortPair, (p: Pair) => p, SortedPairs(m), SortedPairs(n), r, s);
    MappedSelf(SortedPairs(m));
    MappedSelf(SortedPairs(n));
    SortedPairsInjective(m, n);
  }

  lemma DefaultsSplit(m: map<bytes, bytes>, n: map<bytes, bytes>)
    requires SafeDefaults(m) && SafeDefaults(n)
    ensures Splits(DefaultsBytes(m), DefaultsBytes(n))
  {
    forall u, v | DefaultsBytes(m) + u == DefaultsBytes(n) + v
      ensures DefaultsBytes(m) == DefaultsBytes(n)
    {
      DefaultsBind(m, n, u, v);
    }
  }

  lemma PartsSplit(a: RuleSet, b: RuleSet)
    requires RuleSetInRange(a) && RuleSetInRange(b)
    ensures AllSplit(RuleSetParts(a), RuleSetParts(b))
  {
    var p, q := RuleSetParts(a), RuleSetParts(b);
    assert |LimitsBytes(a)| == |LimitsBytes(b)| == 38;
    assert |PenaltyBytes(a.penaltySchedule)| == |PenaltyBytes(b.penaltySchedule)| == 32;
    assert |SettlementBytes(a.settlementRules)| == |SettlementBytes(b.settlementRules)| == 24;
    assert |RecoveryBytes(a.recoveryRules)| == |RecoveryBytes(b.recoveryRules)| == 3;
    DefaultsSplit(a.defaultActions, b.defaultActions);
    forall i | 0 <= i < 8
      ensures Splits(p[i], q[i])
    {
      if i != 2 {
        SameLengthSplits(p[i], q[i]);
      }
    }
  }

  lemma LimitsBind(a: RuleSet, b: RuleSet)
    requires SafeLimits(a) && SafeLimits(b) && LimitsBytes(a) == LimitsBytes(b)
    ensures LimitsOf(a) == LimitsOf(b)
  {
    LimitsReadBack(a, []);
    LimitsReadBack(b, []);
  }

  lemma SignedBinds(m: int, n: int)
    requires I32Range(m) && I32Range(n) && m % U32 == n % U32
    ensures m == n
  {
  }

  lemma SettlementBinds(a: SettlementRules, b: SettlementRules)
    requires SafeSettlement(a) && SafeSettlement(b) && SettlementBytes(a) == SettlementBytes(b)
    ensures a == b
  {
    SettlementReadsBack(a, []);
    SettlementReadsBack(b, []);
    var u, v := ReadUnsigned(a), ReadUnsigned(b);
    assert u == v;
    assert u.winMultiplier == a.winMultiplier % U32 && v.winMultiplier == b.winMultiplier % U32;
    assert u.lossMultiplier == a.lossMultiplier % U32 && v.lossMultiplier == b.lossMultiplier % U32;
    SignedBinds(a.winMultiplier, b.winMultiplier);
    SignedBinds(a.lossMultiplier, b.lossMultiplier);
  }

  lemma PenaltyBinds(a: PenaltySchedule, b: PenaltySchedule)
    requires SafePenalties(a) && SafePenalties(b) && PenaltyBytes(a) == PenaltyBytes(b)
    ensures a == b
  {
    PenaltyReadsBack(a, []);
    PenaltyReadsBack(b, []);
  }

  lemma RecoveryBinds(a: RecoveryRules, b: RecoveryRules)
    requires RecoveryBytes(a) == RecoveryBytes(b)
    ensures a == b
  {
    RecoveryReadsBack(a, []);
    RecoveryReadsBack(b, []);
  }

  lemma SamePartsSameRules(a: RuleSet, b: RuleSet)
    requires RuleSetInRange(a) && RuleSetInRange(b) && RuleSetParts(a) == RuleSetParts(b)
    ensures a == b
  {
    var p, q := RuleSetParts(a), RuleSetParts(b);
    assert p[1] == q[1] && p[2] == q[2] && p[3] == q[3] && p[4] == q[4] && p[5] == q[5] && p[6] == q[6] && p[7] == q[7];
    LimitsBind(a, b);
    assert LimitsOf(a) == LimitsOf(b);
    DefaultsBind(a.defaultActions, b.defaultActions, [], []);
    PenaltyBinds(a.penaltySchedule, b.penaltySchedule);
    Widths();
    LEInjective(a.deckFormat, b.deckFormat, 1);
    LEInjective(a.shuffleVersion, b.shuffleVersion, 1);
    SettlementBinds(a.settlementRules, b.settlementRules);
    RecoveryBinds(a.recoveryRules, b.recoveryRules);
  }

  /** The encoding is injective and marks its own end. */
  lemma EncodingIdentifiesRules(a: RuleSet, b: RuleSet, x: bytes, y: bytes)
    requires EncodeRuleSet(a).Some? && EncodeRuleSet(b).Some?
    requires EncodeRuleSet(a).value + x == EncodeRuleSet(b).value + y
    ensures a == b && x == y
  {
    PartsSplit(a, b);
    FlatSplits(RuleSetParts(a), RuleSetParts(b), x, y);
    SamePartsSameRules(a, b);
  }

  /** Type tag 1, then the encoding. */
  ghost function RuleSetHashInput(rs: RuleSet): bytes
    requires EncodeRuleSet(rs).Some?
  {
    [1, 0] + EncodeRuleSet(rs).value
  }

  /** ruleSetHash fixes the whole rule set, as far as the hash does not collide on the two encodings. */
  lemma RuleSetHashBinds(h: Hash, a: RuleSet, b: RuleSet)
    requires EncodeRuleSet(a).Some? && EncodeRuleSet(b).Some?
    requires CollisionFreeOn(h, {RuleSetHashInput(a), RuleSetHashInput(b)})
    ensures h(RuleSetHashInput(a)) == h(RuleSetHashInput(b)) <==> a == b
  {
    if h(RuleSetHashInput(a)) == h(RuleSetHashInput(b)) {
      SplitSameLength([1, 0], EncodeRuleSet(a).value, [1, 0], EncodeRuleSet(b).value);
      EncodingIdentifiesRules(a, b, [], []);
    }
  }
}
