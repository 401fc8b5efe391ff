/** The canonical form of a rule set: what encodeRuleSet writes, and what decodeRuleSet makes of it. */
module RuleSetCodec {
  import opened Wrappers
  import opened Bytes
  import opened Concatenation
  import opened Canonical
  import opened Sorting
  import opened Protocol
  import opened CanonicalIO

  // ----- what is written -----

  predicate Safe(n: int) { 0 <= n <= MAX_SAFE }

  predicate I32Range(n: int) { -0x8000_0000 <= n < 0x8000_0000 }

  predicate SafeText(s: bytes) { |s| <= MAX_SAFE }

  predicate SafePenalties(p: PenaltySchedule) {
    Safe(p.nonReveal) && Safe(p.badReveal) && Safe(p.consecutiveCards) && Safe(p.equalCards)
  }

  predicate SafeSettlement(s: SettlementRules) {
    I32Range(s.winMultiplier) && I32Range(s.lossMultiplier) && Safe(s.consecutivePenalty) && Safe(s.equalPenalty)
  }

  predicate SafePair(p: Pair) { SafeText(p.0) && SafeText(p.1) }

  ghost predicate SafeDefaults(m: map<bytes, bytes>) {
    |m| <= MAX_SAFE && forall k :: k in m ==> SafeText(k) && SafeText(m[k])
  }

  predicate SafeLimits(rs: RuleSet) {
    rs.playerCountMin < 256 && rs.playerCountMax < 256 &&
    Safe(rs.stakeAmount) && Safe(rs.minBet) && Safe(rs.maxBet) &&
    rs.decisionTimeoutBlocks < U32 && rs.recoveryTimeoutBlocks < U32 && rs.invitationWindowBlocks < U32
  }

  /** The rule sets that encodeRuleSet does not throw on. */
  ghost predicate RuleSetInRange(rs: RuleSet) {
    rs.serialisationVersion == 1 && SafeLimits(rs) && SafeDefaults(rs.defaultActions) &&
    SafePenalties(rs.penaltySchedule) && rs.deckFormat < 256 && rs.shuffleVersion < 256 &&
    SafeSettlement(rs.settlementRules)
  }

  lemma SafePairs(m: map<bytes, bytes>)
    ensures SafeDefaults(m) <==> |m| <= MAX_SAFE && forall p :: p in SortedPairs(m) ==> SafePair(p)
  {
    SortedKeysFacts(m);
    var keys, pairs := SortedKeys(m), SortedPairs(m);
    if forall p :: p in pairs ==> SafePair(p) {
      forall k | k in m
        ensures SafeText(k) && SafeText(m[k])
      {
        assert k in keys;
        var i :| 0 <= i < |keys| && keys[i] == k;
        assert pairs[i] in pairs;
      }
    }
  }

  function LimitsBytes(rs: RuleSet): bytes
    requires SafeLimits(rs)
  {
    LE(rs.playerCountMin, 1) + LE(rs.playerCountMax, 1) +
    LE(rs.stakeAmount, 8) + LE(rs.minBet, 8) + LE(rs.maxBet, 8) +
    LE(rs.decisionTimeoutBlocks, 4) + LE(rs.recoveryTimeoutBlocks, 4) + LE(rs.invitationWindowBlocks, 4)
  }

  ghost function DefaultsBytes(m: map<bytes, bytes>): bytes {
    EncodeArray(EncodePair, SortedPairs(m))
  }

  function PenaltyBytes(p: PenaltySchedule): bytes
    requires SafePenalties(p)
  {
    LE(p.nonReveal, 8) + LE(p.badReveal, 8) + LE(p.consecutiveCards, 8) + LE(p.equalCards, 8)
  }

  function SettlementBytes(s: SettlementRules): bytes
    requires SafeSettlement(s)
  {
    LE(s.winMultiplier % U32, 4) + LE(s.lossMultiplier % U32, 4) +
    LE(s.consecutivePenalty, 8) + LE(s.equalPenalty, 8)
  }

  function Flag(b: bool): bytes { LE(if b then 1 else 0, 1) }

  function RecoveryBytes(r: RecoveryRules): bytes {
    Flag(r.refundStakes) + Flag(r.applyNonReveal) + Flag(r.applyBadReveal)
  }

  ghost function RuleSetParts(rs: RuleSet): seq<bytes>
    requires RuleSetInRange(rs)
  {
    [[1, 1], LimitsBytes(rs), DefaultsBytes(rs.defaultActions), PenaltyBytes(rs.penaltySchedule),
     LE(rs.deckFormat, 1), LE(rs.shuffleVersion, 1), SettlementBytes(rs.settlementRules),
     RecoveryBytes(rs.recoveryRules)]
  }

  /** The encoding, or None where the code throws. Codes 1 and 1: the composite version, the one game type. */
  ghost function EncodeRuleSet(rs: RuleSet): Option<bytes> {
    if RuleSetInRange(rs) then Some(Flat(RuleSetParts(rs))) else None
  }

  // ----- the encoder as written -----

  method EncodeMoney(w: CanonicalWriter, rs: RuleSet) returns (ok: bool)
    requires w.Growable()
    modifies w.Repr
    ensures w.Growable() && fresh(w.Repr - old(w.Repr))
    ensures ok <==> Safe(rs.stakeAmount) && Safe(rs.minBet) && Safe(rs.maxBet)
    ensures ok ==> w.contents == old(w.contents) + LE(rs.stakeAmount, 8) + LE(rs.minBet, 8) + LE(rs.maxBet, 8)
  {
    ok := w.WriteU64(rs.stakeAmount);
    if !ok { return; }
    ok := w.WriteU64(rs.minBet);
    if !ok { return; }
    ok := w.WriteU64(rs.maxBet);
  }

  method EncodeTimeouts(w: CanonicalWriter, rs: RuleSet) returns (ok: bool)
    requires w.Growable()
    modifies w.Repr
    ensures w.Growable() && fresh(w.Repr - old(w.Repr))
    ensures ok <==>
      rs.decisionTimeoutBlocks < U32 && rs.recoveryTimeoutBlocks < U32 && rs.invitationWindowBlocks < U32
    ensures ok ==> w.contents == old(w.contents) + LE(rs.decisionTimeoutBlocks, 4) +
                                 LE(rs.recoveryTimeoutBlocks, 4) + LE(rs.invitationWindowBlocks, 4)
  {
    ok := w.WriteU32(rs.decisionTimeoutBlocks);
    if !ok { return; }
    ok := w.WriteU32(rs.recoveryTimeoutBlocks);
    if !ok { return; }
    ok := w.WriteU32(rs.invitationWindowBlocks);
  }

  method EncodeLimits(w: CanonicalWriter, rs: RuleSet) returns (ok: bool)
    requires w.Growable()
    modifies w.Repr
    ensures w.Growable() && fresh(w.Repr - old(w.Repr)) && (ok <==> SafeLimits(rs))
    ensures ok ==> w.contents == old(w.contents) + LimitsBytes(rs)
  {
    if rs.playerCountMin > 255 || rs.playerCountMax > 255 { return false; }
    ok := w.WriteU8(rs.playerCountMin);
    ok := w.WriteU8(rs.playerCountMax);
    ok := EncodeMoney(w, rs);
    if !ok { return; }
    ok := EncodeTimeouts(w, rs);
    if !ok { return; }
    Regroup8(old(w.contents), LE(rs.playerCountMin, 1), LE(rs.playerCountMax, 1), LE(rs.stakeAmount, 8),
             LE(rs.minBet, 8), LE(rs.maxBet, 8), LE(rs.decisionTimeoutBlocks, 4),
             LE(rs.recoveryTimeoutBlocks, 4), LE(rs.invitationWindowBlocks, 4));
  }

  method EncodeEntry(w: CanonicalWriter, p: Pair) returns (ok: bool)
    requires w.Growable()
    modifies w.Repr
    ensures w.Growable() && fresh(w.Repr - old(w.Repr)) && (ok <==> SafePair(p))
    ensures ok ==> w.contents == old(w.contents) + EncodePair(p)
  {
    ok := w.WriteText(p.0);
    if !ok { return; }
    ok := w.WriteText(p.1);
    Assoc(old(w.contents), Prefixed(p.0), Prefixed(p.1));
  }

  method EncodeEntries(w: CanonicalWriter, keys: seq<bytes>, defaults: map<bytes, bytes>) returns (ok: bool)
    requires w.Growable() && forall k :: k in keys ==> k in defaults
    modifies w.Repr
    ensures w.Growable() && fresh(w.Repr - old(w.Repr))
    ensures ok <==> forall p :: p in PairsOf(keys, defaults) ==> SafePair(p)
    ensures ok ==> w.contents == old(w.contents) + Each(EncodePair, PairsOf(keys, defaults))
  {
    ghost var pairs := PairsOf(keys, defaults);
    for i := 0 to |keys|
      invariant w.Growable() && fresh(w.Repr - old(w.Repr))
      invariant forall j :: 0 <= j < i ==> SafePair(pairs[j])
      invariant w.contents == old(w.contents) + Each(EncodePair, pairs[..i])
    {
      ok := EncodeEntry(w, (keys[i], defaults[keys[i]]));
      if !ok {
        assert pairs[i] in pairs;
        return;
      }
      EachSnoc(EncodePair, pairs, i, old(w.contents));
    }
    assert pairs[..|keys|] == pairs;
    return true;
  }

  /** keys is the insertion order of the record. */
  method EncodeDefaults(w: CanonicalWriter, keys: seq<bytes>, defaults: map<bytes, bytes>) returns (ok: bool)
    requires w.Growable() && Enumerates(keys, defaults)
    modifies w.Repr
    ensures w.Growable() && fresh(w.Repr - old(w.Repr)) && (ok <==> SafeDefaults(defaults))
    ensures ok ==> w.contents == old(w.contents) + DefaultsBytes(defaults)
  {
    var sorted := Sort(StringLE, keys);
    SortedOnce(keys, sorted, defaults, w.contents);
    ok := w.WriteVarint(|sorted|);
    if !ok { return; }
    ok := EncodeEntries(w, sorted, defaults);
  }

  /** Whatever the insertion order, the sorted keys write the canonical map. */
  lemma SortedOnce(keys: seq<bytes>, sorted: seq<bytes>, m: map<bytes, bytes>, start: bytes)
    requires Enumerates(keys, m) && sorted == Sort(StringLE, keys)
    ensures |sorted| == |m| && forall k :: k in sorted ==> k in m
    ensures start + Varint(|sorted|) + Each(EncodePair, PairsOf(sorted, m)) == start + DefaultsBytes(m)
    ensures SafeDefaults(m) <==> |sorted| <= MAX_SAFE && forall p :: p in PairsOf(sorted, m) ==> SafePair(p)
  {
    SortedKeysUnique(keys, m);
    SortedKeysFacts(m);
    SafePairs(m);
    var v, e := Varint(|sorted|), Each(EncodePair, PairsOf(sorted, m));
    assert start + v + e == start + (v + e);
  }

  method EncodePenalty(w: CanonicalWriter, p: PenaltySchedule) returns (ok: bool)
    requires w.Growable()
    modifies w.Repr
    ensures w.Growable() && fresh(w.Repr - old(w.Repr)) && (ok <==> SafePenalties(p))
    ensures ok ==> w.contents == old(w.contents) + PenaltyBytes(p)
  {
    ok := w.WriteU64(p.nonReveal);
    if !ok { return; }
    ok := w.WriteU64(p.badReveal);
    if !ok { return; }
    ok := w.WriteU64(p.consecutiveCards);
    if !ok { return; }
    ok := w.WriteU64(p.equalCards);
    if !ok { return; }
    Regroup4(old(w.contents), LE(p.nonReveal, 8), LE(p.badReveal, 8), LE(p.consecutiveCards, 8), LE(p.equalCards, 8));
  }

  method EncodeSettlement(w: CanonicalWriter, s: SettlementRules) returns (ok: bool)
    requires w.Growable()
    modifies w.Repr
    ensures w.Growable() && fresh(w.Repr - old(w.Repr)) && (ok <==> SafeSettlement(s))
    ensures ok ==> w.contents == old(w.contents) + SettlementBytes(s)
  {
    ok := w.WriteI32(s.winMultiplier);
    if !ok { return; }
    ok := w.WriteI32(s.lossMultiplier);
    if !ok { return; }
    ok := w.WriteU64(s.consecutivePenalty);
    if !ok { return; }
    ok := w.WriteU64(s.equalPenalty);
    if !ok { return; }
    Regroup4(old(w.contents), LE(s.winMultiplier % U32, 4), LE(s.lossMultiplier % U32, 4),
             LE(s.consecutivePenalty, 8), LE(s.equalPenalty, 8));
  }

  method EncodeRecovery(w: CanonicalWriter, r: RecoveryRules)
    requires w.Growable()
    modifies w.Repr
    ensures w.Growable() && fresh(w.Repr - old(w.Repr))
    ensures w.contents == old(w.contents) + RecoveryBytes(r)
  {
    w.WriteBool(r.refundStakes);
    w.WriteBool(r.applyNonReveal);
    w.WriteBool(r.applyBadReveal);
    Regroup4(old(w.contents), Flag(r.refundStakes), Flag(r.applyNonReveal), Flag(r.applyBadReveal), []);
  }

  method EncodeTail(w: CanonicalWriter, rs: RuleSet) returns (ok: bool)
    requires w.Growable()
    modifies w.Repr
    ensures w.Growable() && fresh(w.Repr - old(w.Repr))
    ensures ok <==> rs.deckFormat < 256 && rs.shuffleVersion < 256 && SafeSettlement(rs.settlementRules)
    ensures ok ==> w.contents == old(w.contents) + LE(rs.deckFormat, 1) + LE(rs.shuffleVersion, 1) +
                                 SettlementBytes(rs.settlementRules) + RecoveryBytes(rs.recoveryRules)
  {
    ok := w.WriteU8(rs.deckFormat);
    if !ok { return; }
    if rs.shuffleVersion > 255 { return false; }
    ok := w.WriteU8(rs.shuffleVersion);
    ok := EncodeSettlement(w, rs.settlementRules);
    if !ok { return; }
    EncodeRecovery(w, rs.recoveryRules);
  }

  /** The growing buffer ends up holding the canonical form, whatever order the defaults were inserted in. */
  method EncodeWithWriter(rs: RuleSet, keys: seq<bytes>) returns (r: Option<bytes>)
    requires Enumerates(keys, rs.defaultActions)
    ensures r == EncodeRuleSet(rs)
  {
    if rs.serialisationVersion != 1 { return None; }
    var w := new CanonicalWriter();
    var ok := w.WriteU8(1);
    ok := w.WriteU8(1);
    assert w.contents == [1, 1];
    ok := EncodeLimits(w, rs);
    if !ok { return None; }
    ok := EncodeDefaults(w, keys, rs.defaultActions);
    if !ok { return None; }
    ok := EncodePenalty(w, rs.penaltySchedule);
    if !ok { return None; }
    ok := EncodeTail(w, rs);
    if !ok { return None; }
    var b := w.Bytes();
    ghost var p := RuleSetParts(rs);
    Flat8(p);
    return Some(b);
  }

  lemma Regroup4(s: bytes, a: bytes, b: bytes, c: bytes, d: bytes)
    ensures s + a + b + c + d == s + (a + b + c + d)
    ensures (a + b + c + d) + s == a + (b + (c + (d + s)))
    ensures d == [] ==> a + b + c + d == a + b + c
  {
  }

  lemma Regroup8(s: bytes, a: bytes, b: bytes, c: bytes, d: bytes, e: bytes, f: bytes, g: bytes, h: bytes)
    ensures s + a + b + c + d + e + f + g + h == s + (a + b + c + d + e + f + g + h)
    ensures (a + b + c + d + e + f + g + h) + s == a + (b + (c + (d + (e + (f + (g + (h + s)))))))
  {
    var front := a + b + c + d;
    Regroup4(s, a, b, c, d);
    Regroup4(s + front, e, f, g, h);
    Regroup4(front, e, f, g, h);
    Regroup4(e + f + g + h + s, a, b, c, d);
    Regroup4(s, e, f, g, h);
    assert s + (front + (e + f + g + h)) == s + front + (e + f + g + h);
    assert front + e + f + g + h + s == front + (e + f + g + h) + s == front + (e + f + g + h + s);
  }

  lemma Flat8(p: seq<bytes>)
    requires |p| == 8
    ensures Flat(p) == p[0] + p[1] + p[2] + p[3] + p[4] + p[5] + p[6] + p[7]
    ensures forall rest ::
      Flat(p) + rest == p[0] + (p[1] + (p[2] + (p[3] + (p[4] + (p[5] + (p[6] + (p[7] + rest)))))))
  {
    FlatPair(p[6], p[7]);
    assert p[6..] == [p[6], p[7]];
    Regroup8([], p[0], p[1], p[2], p[3], p[4], p[5], p[6], p[7]);
    forall rest
      ensures (p[0] + p[1] + p[2] + p[3] + p[4] + p[5] + p[6] + p[7]) + rest
           == p[0] + (p[1] + (p[2] + (p[3] + (p[4] + (p[5] + (p[6] + (p[7] + rest)))))))
    {
      Regroup8(rest, p[0], p[1], p[2], p[3], p[4], p[5], p[6], p[7]);
    }
    assert Flat(p[5..]) == p[5] + Flat(p[6..]);
    assert Flat(p[4..]) == p[4] + Flat(p[5..]);
    assert Flat(p[3..]) == p[3] + Flat(p[4..]);
    assert Flat(p[2..]) == p[2] + Flat(p[3..]);
    assert Flat(p[1..]) == p[1] + Flat(p[2..]);
  }
}
