/** decodeRuleSet, and exactly when it gives back the rule set that was encoded. */
module RuleSetDecoder {
  import opened Wrappers
  import opened Bytes
  import opened Concatenation
  import opened Canonical
  import opened Protocol
  import opened Utf8
  import opened CanonicalIO
  import opened RuleSetCodec

  // ----- the decoder, as a function of the bytes -----

  datatype Limits = Limits(
    playerCountMin: nat, playerCountMax: nat, stakeAmount: nat, minBet: nat, maxBet: nat,
    decisionTimeout: nat, recoveryTimeout: nat, invitationWindow: nat)

  function ParseLimits(b: bytes): Parsed<Limits> {
    var (min, b1) :- ReadLE(b, 1);
    var (max, b2) :- ReadLE(b1, 1);
    var (stake, b3) :- ParseU64(b2);
    var (minBet, b4) :- ParseU64(b3);
    var (maxBet, b5) :- ParseU64(b4);
    var (decision, b6) :- ReadLE(b5, 4);
    var (recovery, b7) :- ReadLE(b6, 4);
    var (invitation, b8) :- ReadLE(b7, 4);
    Got(Limits(min, max, stake, minBet, maxBet, decision, recovery, invitation), b8)
  }

  function ParseEntry(b: bytes): Parsed<Pair> {
    var (k, b1) :- ParseText(b);
    var (v, b2) :- ParseText(b1);
    Got((k, v), b2)
  }

  /** Later entries overwrite earlier ones, as assignment to a record does. */
  function ParseEntries(parse: bytes -> Parsed<Pair>, b: bytes, n: nat, out: map<bytes, bytes>)
    : Parsed<map<bytes, bytes>>
    decreases n
  {
    if n == 0 then Got(out, b) else
    var (p, b1) :- parse(b);
    ParseEntries(parse, b1, n - 1, out[p.0 := p.1])
  }

  function ParseDefaults(b: bytes): Parsed<map<bytes, bytes>> {
    var (n, b1) :- ParseVarint(b);
    ParseEntries(ParseEntry, b1, n, map[])
  }

  function ParsePenalty(b: bytes): Parsed<PenaltySchedule> {
    var (nonReveal, b1) :- ParseU64(b);
    var (badReveal, b2) :- ParseU64(b1);
    var (consecutive, b3) :- ParseU64(b2);
    var (equal, b4) :- ParseU64(b3);
    Got(PenaltySchedule(nonReveal, badReveal, consecutive, equal), b4)
  }

  /** The multipliers are read unsigned although they are written signed. */
  function ParseSettlement(b: bytes): Parsed<SettlementRules> {
    var (win, b1) :- ReadLE(b, 4);
    var (loss, b2) :- ReadLE(b1, 4);
    var (consecutive, b3) :- ParseU64(b2);
    var (equal, b4) :- ParseU64(b3);
    Got(SettlementRules(win, loss, consecutive, equal), b4)
  }

  function ParseRecovery(b: bytes): Parsed<RecoveryRules> {
    var (refund, b1) :- ParseBool(b);
    var (nonReveal, b2) :- ParseBool(b1);
    var (badReveal, b3) :- ParseBool(b2);
    Got(RecoveryRules(refund, nonReveal, badReveal), b3)
  }

  datatype Front = Front(limits: Limits, defaults: map<bytes, bytes>, penalty: PenaltySchedule, deckFormat: nat)

  function ParseFront(b: bytes): Parsed<Front> {
    var (limits, b1) :- ParseLimits(b);
    var (defaults, b2) :- ParseDefaults(b1);
    var (penalty, b3) :- ParsePenalty(b2);
    var (deckFormat, b4) :- ReadLE(b3, 1);
    Got(Front(limits, defaults, penalty, deckFormat), b4)
  }

  datatype Back = Back(shuffleVersion: nat, settlement: SettlementRules, recovery: RecoveryRules)

  function ParseBack(b: bytes): Parsed<Back> {
    var (shuffleVersion, b1) :- ReadLE(b, 1);
    var (settlement, b2) :- ParseSettlement(b1);
    var (recovery, b3) :- ParseRecovery(b2);
    Got(Back(shuffleVersion, settlement, recovery), b3)
  }

  function Assemble(f: Front, k: Back): RuleSet {
    RuleSet(
      f.limits.playerCountMin, f.limits.playerCountMax, f.limits.stakeAmount, f.limits.minBet, f.limits.maxBet,
      f.limits.decisionTimeout, f.limits.recoveryTimeout, f.limits.invitationWindow,
      f.defaults, f.penalty, f.deckFormat, k.shuffleVersion, k.settlement, k.recovery, 1)
  }

  /** Bytes after the last field are not looked at. */
  function DecodeRuleSet(b: bytes): Result<RuleSet, ErrorCode> {
    match ReadLE(b, 1)
    case Fail => Err(SerialisationError)
    case Got(version, b1) =>
      if version != 1 then Err(UnsupportedVersion) else
      match ReadLE(b1, 1)
      case Fail => Err(SerialisationError)
      case Got(gameType, b2) =>
        if gameType != 1 then Err(InvalidRuleSet) else
        match ParseFront(b2)
        case Fail => Err(SerialisationError)
        case Got(front, b3) =>
          if front.deckFormat != 52 && front.deckFormat != 54 then Err(InvalidRuleSet) else
          match ParseBack(b3)
          case Fail => Err(SerialisationError)
          case Got(back, _) => Ok(Assemble(front, back))
  }

  /** The first two bytes are the version and the game type; each has its own refusal. */
  lemma HeadRefusals(version: byte, gameType: byte, rest: bytes)
    ensures DecodeRuleSet([]) == Err(SerialisationError) && DecodeRuleSet([1]) == Err(SerialisationError)
    ensures version != 1 ==> DecodeRuleSet([version] + rest) == Err(UnsupportedVersion)
    ensures gameType != 1 ==> DecodeRuleSet([1] + ([gameType] + rest)) == Err(InvalidRuleSet)
  {
    Widths();
    OneByte(version);
    OneByte(gameType);
    OneByte(1);
    ReadLEOfLE(version, 1, rest);
    ReadLEOfLE(1, 1, [gameType] + rest);
    ReadLEOfLE(1, 1, []);
    ReadLEOfLE(gameType, 1, rest);
    assert [1] + [] == [1];
  }

  // ----- the decoder as written -----

  method DecodeLimits(r: CanonicalReader) returns (l: Option<Limits>)
    requires r.Valid()
    modifies r
    ensures r.Valid() && After(ParseLimits(old(r.Unread())), l, r.Unread())
  {
    var min := r.ReadU8();
    if min.None? { return None; }
    var max := r.ReadU8();
    if max.None? { return None; }
    var stake := r.ReadU64();
    if stake.None? { return None; }
    var minBet := r.ReadU64();
    if minBet.None? { return None; }
    var maxBet := r.ReadU64();
    if maxBet.None? { return None; }
    var decision := r.ReadU32();
    if decision.None? { return None; }
    var recovery := r.ReadU32();
    if recovery.None? { return None; }
    var invitation := r.ReadU32();
    if invitation.None? { return None; }
    return Some(Limits(min.value, max.value, stake.value, minBet.value, maxBet.value,
                       decision.value, recovery.value, invitation.value));
  }

  ghost predicate IsEntryParser(parse: bytes -> Parsed<Pair>) {
    forall b {:trigger parse(b), ParseEntry(b)} :: parse(b) == ParseEntry(b)
  }

  method DecodeEntry(r: CanonicalReader, ghost parse: bytes -> Parsed<Pair>) returns (p: Option<Pair>)
    requires r.Valid() && IsEntryParser(parse)
    modifies r
    ensures r.Valid() && After(parse(old(r.Unread())), p, r.Unread())
  {
    assert parse(r.Unread()) == ParseEntry(r.Unread());
    var k := r.ReadText();
    if k.None? { return None; }
    var v := r.ReadText();
    if v.None? { return None; }
    return Some((k.value, v.value));
  }

  method DecodeEntries(r: CanonicalReader, n: nat, ghost parse: bytes -> Parsed<Pair>)
    returns (d: Option<map<bytes, bytes>>)
    requires r.Valid() && IsEntryParser(parse)
    modifies r
    ensures r.Valid() && After(ParseEntries(parse, old(r.Unread()), n, map[]), d, r.Unread())
  {
    var out: map<bytes, bytes> := map[];
    ghost var whole := ParseEntries(parse, r.Unread(), n, out);
    for i := 0 to n
      invariant r.Valid() && ParseEntries(parse, r.Unread(), n - i, out) == whole
    {
      var p := DecodeEntry(r, parse);
      if p.None? { return None; }
      out := out[p.value.0 := p.value.1];
    }
    return Some(out);
  }

  method DecodeDefaults(r: CanonicalReader) returns (d: Option<map<bytes, bytes>>)
    requires r.Valid()
    modifies r
    ensures r.Valid() && After(ParseDefaults(old(r.Unread())), d, r.Unread())
  {
    var n := r.ReadVarint();
    if n.None? { return None; }
    d := DecodeEntries(r, n.value, ParseEntry);
  }

  method DecodePenalty(r: CanonicalReader) returns (p: Option<PenaltySchedule>)
    requires r.Valid()
    modifies r
    ensures r.Valid() && After(ParsePenalty(old(r.Unread())), p, r.Unread())
  {
    var nonReveal := r.ReadU64();
    if nonReveal.None? { return None; }
    var badReveal := r.ReadU64();
    if badReveal.None? { return None; }
    var consecutive := r.ReadU64();
    if consecutive.None? { return None; }
    var equal := r.ReadU64();
    if equal.None? { return None; }
    return Some(PenaltySchedule(nonReveal.value, badReveal.value, consecutive.value, equal.value));
  }

  method DecodeSettlement(r: CanonicalReader) returns (s: Option<SettlementRules>)
    requires r.Valid()
    modifies r
    ensures r.Valid() && After(ParseSettlement(old(r.Unread())), s, r.Unread())
  {
    var win := r.ReadU32();
    if win.None? { return None; }
    var loss := r.ReadU32();
    if loss.None? { return None; }
    var consecutive := r.ReadU64();
    if consecutive.None? { return None; }
    var equal := r.ReadU64();
    if equal.None? { return None; }
    return Some(SettlementRules(win.value, loss.value, consecutive.value, equal.value));
  }

  method DecodeRecovery(r: CanonicalReader) returns (d: Option<RecoveryRules>)
    requires r.Valid()
    modifies r
    ensures r.Valid() && After(ParseRecovery(old(r.Unread())), d, r.Unread())
  {
    var refund := r.ReadBool();
    if refund.None? { return None; }
    var nonReveal := r.ReadBool();
    if nonReveal.None? { return None; }
    var badReveal := r.ReadBool();
    if badReveal.None? { return None; }
    return Some(RecoveryRules(refund.value, nonReveal.value, badReveal.value));
  }

  method DecodeFront(r: CanonicalReader) returns (f: Option<Front>)
    requires r.Valid()
    modifies r
    ensures r.Valid() && After(ParseFront(old(r.Unread())), f, r.Unread())
  {
    var limits := DecodeLimits(r);
    if limits.None? { return None; }
    var defaults := DecodeDefaults(r);
    if defaults.None? { return None; }
    var penalty := DecodePenalty(r);
    if penalty.None? { return None; }
    var deckFormat := r.ReadU8();
    if deckFormat.None? { return None; }
    return Some(Front(limits.value, defaults.value, penalty.value, deckFormat.value));
  }

  method DecodeBack(r: CanonicalReader) returns (k: Option<Back>)
    requires r.Valid()
    modifies r
    ensures r.Valid() && After(ParseBack(old(r.Unread())), k, r.Unread())
  {
    var shuffleVersion := r.ReadU8();
    if shuffleVersion.None? { return None; }
    var settlement := DecodeSettlement(r);
    if settlement.None? { return None; }
    var recovery := DecodeRecovery(r);
    if recovery.None? { return None; }
    return Some(Back(shuffleVersion.value, settlement.value, recovery.value));
  }

  method DecodeWithReader(b: bytes) returns (r: Result<RuleSet, ErrorCode>)
    ensures r == DecodeRuleSet(b)
  {
    var reader := new CanonicalReader(b);
    var version := reader.ReadU8();
    if version.None? { return Err(SerialisationError); }
    if version.value != 1 { return Err(UnsupportedVersion); }
    var gameType := reader.ReadU8();
    if gameType.None? { return Err(SerialisationError); }
    if gameType.value != 1 { return Err(InvalidRuleSet); }
    var front := DecodeFront(reader);
    if front.None? { return Err(SerialisationError); }
    if front.value.deckFormat != 52 && front.value.deckFormat != 54 { return Err(InvalidRuleSet); }
    var back := DecodeBack(reader);
    if back.None? { return Err(SerialisationError); }
    return Ok(Assemble(front.value, back.value));
  }

  // ----- reading back what was written -----

  function LimitsOf(rs: RuleSet): Limits
    requires SafeLimits(rs)
  {
    Limits(rs.playerCountMin, rs.playerCountMax, rs.stakeAmount, rs.minBet, rs.maxBet,
           rs.decisionTimeoutBlocks, rs.recoveryTimeoutBlocks, rs.invitationWindowBlocks)
  }

  lemma LimitsReadBack(rs: RuleSet, rest: bytes)
    requires SafeLimits(rs)
    ensures ParseLimits(LimitsBytes(rs) + rest) == Got(LimitsOf(rs), rest)
  {
    Widths();
    Regroup8(rest, LE(rs.playerCountMin, 1), LE(rs.playerCountMax, 1), LE(rs.stakeAmount, 8),
             LE(rs.minBet, 8), LE(rs.maxBet, 8), LE(rs.decisionTimeoutBlocks, 4),
             LE(rs.recoveryTimeoutBlocks, 4), LE(rs.invitationWindowBlocks, 4));
    var b8 := rest;
    var b7 := LE(rs.invitationWindowBlocks, 4) + b8;
    var b6 := LE(rs.recoveryTimeoutBlocks, 4) + b7;
    var b5 := LE(rs.decisionTimeoutBlocks, 4) + b6;
    var b4 := LE(rs.maxBet, 8) + b5;
    var b3 := LE(rs.minBet, 8) + b4;
    var b2 := LE(rs.stakeAmount, 8) + b3;
    var b1 := LE(rs.playerCountMax, 1) + b2;
    ReadLEOfLE(rs.playerCountMin, 1, b1);
    ReadLEOfLE(rs.playerCountMax, 1, b2);
    ParseU64OfLE(rs.stakeAmount, b3);
    ParseU64OfLE(rs.minBet, b4);
    ParseU64OfLE(rs.maxBet, b5);
    ReadLEOfLE(rs.decisionTimeoutBlocks, 4, b6);
    ReadLEOfLE(rs.recoveryTimeoutBlocks, 4, b7);
    ReadLEOfLE(rs.invitationWindowBlocks, 4, b8);
  }

  lemma PenaltyReadsBack(p: PenaltySchedule, rest: bytes)
    requires SafePenalties(p)
    ensures ParsePenalty(PenaltyBytes(p) + rest) == Got(p, rest)
  {
    var b3 := LE(p.equalCards, 8) + rest;
    var b2 := LE(p.consecutiveCards, 8) + b3;
    var b1 := LE(p.badReveal, 8) + b2;
    Regroup4(rest, LE(p.nonReveal, 8), LE(p.badReveal, 8), LE(p.consecutiveCards, 8), LE(p.equalCards, 8));
    ParseU64OfLE(p.nonReveal, b1);
    ParseU64OfLE(p.badReveal, b2);
    ParseU64OfLE(p.consecutiveCards, b3);
    ParseU64OfLE(p.equalCards, rest);
  }

  /** A negative multiplier comes back as its unsigned reading. */
  function ReadUnsigned(s: SettlementRules): SettlementRules {
    s.(winMultiplier := s.winMultiplier % U32, lossMultiplier := s.lossMultiplier % U32)
  }

  lemma SettlementReadsBack(s: SettlementRules, rest: bytes)
    requires SafeSettlement(s)
    ensures ParseSettlement(SettlementBytes(s) + rest) == Got(ReadUnsigned(s), rest)
  {
    Widths();
    var b3 := LE(s.equalPenalty, 8) + rest;
    var b2 := LE(s.consecutivePenalty, 8) + b3;
    var b1 := LE(s.lossMultiplier % U32, 4) + b2;
    Regroup4(rest, LE(s.winMultiplier % U32, 4), LE(s.lossMultiplier % U32, 4),
             LE(s.consecutivePenalty, 8), LE(s.equalPenalty, 8));
    ReadLEOfLE(s.winMultiplier % U32, 4, b1);
    ReadLEOfLE(s.lossMultiplier % U32, 4, b2);
    ParseU64OfLE(s.consecutivePenalty, b3);
    ParseU64OfLE(s.equalPenalty, rest);
  }

  lemma RecoveryReadsBack(r: RecoveryRules, rest: bytes)
    ensures ParseRecovery(RecoveryBytes(r) + rest) == Got(r, rest)
  {
    var b2 := Flag(r.applyBadReveal) + rest;
    var b1 := Flag(r.applyNonReveal) + b2;
    assert RecoveryBytes(r) + rest == Flag(r.refundStakes) + b1;
    ParseBoolOf(r.refundStakes, b1);
    ParseBoolOf(r.applyNonReveal, b2);
    ParseBoolOf(r.applyBadReveal, rest);
  }

  // ----- the default actions -----

  predicate ReadablePair(p: Pair) { Readable(p.0) && Readable(p.1) }

  /** The record that assigning each entry in turn leaves. */
  function Fill(out: map<bytes, bytes>, pairs: seq<Pair>): map<bytes, bytes>
    decreases |pairs|
  {
    if pairs == [] then out else Fill(out[Text(pairs[0].0) := Text(pairs[0].1)], pairs[1..])
  }

  lemma EntryReadsBack(p: Pair, tail: bytes)
    requires SafePair(p)
    ensures ParseEntry(EncodePair(p) + tail) == if ReadablePair(p) then Got((Text(p.0), Text(p.1)), tail) else Fail
  {
    assert EncodePair(p) + tail == Prefixed(p.0) + (Prefixed(p.1) + tail);
    ParseTextOf(p.0, Prefixed(p.1) + tail);
    ParseTextOf(p.1, tail);
  }

  ghost predicate AllReadable(pairs: seq<Pair>) {
    forall p :: p in pairs ==> ReadablePair(p)
  }

  lemma ReadableTail(pairs: seq<Pair>)
    requires pairs != []
    ensures AllReadable(pairs) <==> ReadablePair(pairs[0]) && AllReadable(pairs[1..])
  {
    assert pairs == [pairs[0]] + pairs[1..];
  }

  lemma {:induction false} EntriesReadBack(
    parse: bytes -> Parsed<Pair>, enc: Pair -> bytes, pairs: seq<Pair>, rest: bytes, out: map<bytes, bytes>)
    requires forall p, tail {:trigger parse(enc(p) + tail)} ::
      p in pairs ==> parse(enc(p) + tail) == if ReadablePair(p) then Got((Text(p.0), Text(p.1)), tail) else Fail
    ensures ParseEntries(parse, Each(enc, pairs) + rest, |pairs|, out)
         == if AllReadable(pairs) then Got(Fill(out, pairs), rest) else Fail
    decreases |pairs|
  {
    if pairs == [] {
      assert Each(enc, pairs) + rest == rest;
    } else {
      var p, more := pairs[0], pairs[1..];
      var tail := Each(enc, more) + rest;
      Assoc(enc(p), Each(enc, more), rest);
      ReadableTail(pairs);
      assert p in pairs;
      if ReadablePair(p) {
        EntriesReadBack(parse, enc, more, rest, out[Text(p.0) := Text(p.1)]);
      }
    }
  }

  ghost predicate ReadableDefaults(m: map<bytes, bytes>) {
    forall k :: k in m ==> Readable(k) && Readable(m[k])
  }

  lemma PairOf(m: map<bytes, bytes>, k: bytes) returns (i: nat)
    requires k in m
    ensures i < |SortedPairs(m)| && SortedPairs(m)[i] == (k, m[k])
  {
    SortedKeysFacts(m);
    assert k in SortedKeys(m);
    i :| i < |SortedKeys(m)| && SortedKeys(m)[i] == k;
  }

  lemma ReadableRecord(m: map<bytes, bytes>)
    ensures ReadableDefaults(m) <==> AllReadable(SortedPairs(m))
  {
    SortedKeysFacts(m);
    var pairs := SortedPairs(m);
    if forall p :: p in pairs ==> ReadablePair(p) {
      forall k | k in m
        ensures Readable(k) && Readable(m[k])
      {
        var i := PairOf(m, k);
        assert pairs[i] in pairs;
      }
    } else {
      var p :| p in pairs && !ReadablePair(p);
      assert p.0 in SortedKeys(m);
    }
  }

  lemma DefaultsReadBack(m: map<bytes, bytes>, rest: bytes)
    requires SafeDefaults(m)
    ensures ParseDefaults(DefaultsBytes(m) + rest)
         == if ReadableDefaults(m) then Got(Fill(map[], SortedPairs(m)), rest) else Fail
  {
    SafePairs(m);
    ReadableRecord(m);
    SortedKeysFacts(m);
    PairsReadBack(SortedPairs(m), rest);
  }

  lemma PairsReadBack(pairs: seq<Pair>, rest: bytes)
    requires |pairs| <= MAX_SAFE && forall p :: p in pairs ==> SafePair(p)
    ensures ParseDefaults(EncodeArray(EncodePair, pairs) + rest)
         == if AllReadable(pairs) then Got(Fill(map[], pairs), rest) else Fail
  {
    var tail := Each(EncodePair, pairs) + rest;
    Assoc(Varint(|pairs|), Each(EncodePair, pairs), rest);
    CountReadsBack(|pairs|, tail);
    forall p: Pair, more: bytes | p in pairs
      ensures ParseEntry(EncodePair(p) + more) == if ReadablePair(p) then Got((Text(p.0), Text(p.1)), more) else Fail
    {
      EntryReadsBack(p, more);
    }
    EntriesReadBack(ParseEntry, EncodePair, pairs, rest, map[]);
  }

  lemma CountReadsBack(n: nat, tail: bytes)
    requires n <= MAX_SAFE
    ensures ParseDefaults(Varint(n) + tail) == ParseEntries(ParseEntry, tail, n, map[])
  {
    ReadVarintOfVarint(n, tail);
  }

  /** No key and no value starts with a byte-order mark. */
  ghost predicate Unmarked(m: map<bytes, bytes>) {
    forall k :: k in m ==> !(BOM <= k) && !(BOM <= m[k])
  }

  lemma {:induction false} FillKeeps(out: map<bytes, bytes>, pairs: seq<Pair>, k: bytes)
    requires forall p :: p in pairs ==> Text(p.0) != k
    ensures k in Fill(out, pairs) <==> k in out
    ensures k in out ==> Fill(out, pairs)[k] == out[k]
    decreases |pairs|
  {
    if pairs != [] {
      assert pairs[0] in pairs;
      FillKeeps(out[Text(pairs[0].0) := Text(pairs[0].1)], pairs[1..], k);
    }
  }

  /** The last entry for a key is the one that stays. */
  lemma {:induction false} FillLast(out: map<bytes, bytes>, pairs: seq<Pair>, i: nat)
    requires i < |pairs| && forall j :: i < j < |pairs| ==> Text(pairs[j].0) != Text(pairs[i].0)
    ensures Text(pairs[i].0) in Fill(out, pairs) && Fill(out, pairs)[Text(pairs[i].0)] == Text(pairs[i].1)
    decreases |pairs|
  {
    var next := out[Text(pairs[0].0) := Text(pairs[0].1)];
    if i == 0 {
      FillKeeps(next, pairs[1..], Text(pairs[0].0));
    } else {
      FillLast(next, pairs[1..], i - 1);
    }
  }

  ghost predicate IsKeyText(m: map<bytes, bytes>, x: bytes) {
    exists y :: y in m && Text(y) == x
  }

  ghost predicate EveryKeyIsAText(m: map<bytes, bytes>) {
    forall x {:trigger IsKeyText(m, x)} :: x in m ==> IsKeyText(m, x)
  }

  /** If every key is some key's text, none is marked: a marked key would need an ever longer one. */
  lemma {:induction false} NoMarkedKey(m: map<bytes, bytes>, k: bytes)
    requires ReadableDefaults(m) && EveryKeyIsAText(m)
    ensures k in m ==> !(BOM <= k)
    decreases TEXT_CAP - |k|
  {
    if k in m && BOM <= k {
      assert IsKeyText(m, k);
      var y :| y in m && Text(y) == k;
      assert BOM <= y && |y| == |k| + 3;
      NoMarkedKey(m, y);
    }
  }

  lemma RefillFindsKeys(m: map<bytes, bytes>)
    requires Fill(map[], SortedPairs(m)) == m
    ensures EveryKeyIsAText(m)
  {
    SortedKeysFacts(m);
    var pairs := SortedPairs(m);
    forall x | x in m
      ensures IsKeyText(m, x)
    {
      if forall p :: p in pairs ==> Text(p.0) != x {
        FillKeeps(map[], pairs, x);
      } else {
        var p :| p in pairs && Text(p.0) == x;
        assert p.0 in SortedKeys(m);
      }
    }
  }

  lemma RefillOfUnmarkedKeys(m: map<bytes, bytes>, k: bytes)
    requires k in m && forall x :: x in m ==> !(BOM <= x)
    ensures k in Fill(map[], SortedPairs(m)) && Fill(map[], SortedPairs(m))[k] == Text(m[k])
  {
    SortedKeysFacts(m);
    var keys, pairs := SortedKeys(m), SortedPairs(m);
    var i := PairOf(m, k);
    forall j | i < j < |pairs|
      ensures Text(pairs[j].0) != Text(pairs[i].0)
    {
      assert keys[i] in keys && keys[j] in keys && keys[i] != keys[j];
    }
    FillLast(map[], pairs, i);
  }

  lemma RestoredIsUnmarked(m: map<bytes, bytes>)
    requires ReadableDefaults(m) && Fill(map[], SortedPairs(m)) == m
    ensures Unmarked(m)
  {
    RefillFindsKeys(m);
    forall k | k in m
      ensures !(BOM <= k)
    {
      NoMarkedKey(m, k);
    }
    forall k | k in m
      ensures !(BOM <= m[k])
    {
      RefillOfUnmarkedKeys(m, k);
    }
  }

  lemma UnmarkedIsRestored(m: map<bytes, bytes>)
    requires Unmarked(m)
    ensures Fill(map[], SortedPairs(m)) == m
  {
    var filled := Fill(map[], SortedPairs(m));
    SortedKeysFacts(m);
    forall k
      ensures k in filled <==> k in m
      ensures k in m ==> filled[k] == m[k]
    {
      if k in m {
        RefillOfUnmarkedKeys(m, k);
      } else {
        assert forall p :: p in SortedPairs(m) ==> p.0 in SortedKeys(m);
        FillKeeps(map[], SortedPairs(m), k);
      }
    }
  }

  /** Assigning the decoded entries restores the record exactly when nothing starts with a mark. */
  lemma RefillRestores(m: map<bytes, bytes>)
    requires ReadableDefaults(m)
    ensures Fill(map[], SortedPairs(m)) == m <==> Unmarked(m)
  {
    if Fill(map[], SortedPairs(m)) == m {
      RestoredIsUnmarked(m);
    } else if Unmarked(m) {
      UnmarkedIsRestored(m);
    }
  }

  // ----- the whole record -----

  /** What decoding gives for an encoded rule set with any bytes behind it: the complete case distinction. */
  ghost function Reread(rs: RuleSet): Result<RuleSet, ErrorCode> {
    if !ReadableDefaults(rs.defaultActions) then Err(SerialisationError)
    else if rs.deckFormat != 52 && rs.deckFormat != 54 then Err(InvalidRuleSet)
    else Ok(rs.(defaultActions := Fill(map[], SortedPairs(rs.defaultActions)),
                settlementRules := ReadUnsigned(rs.settlementRules)))
  }

  lemma FrontReadsBack(rs: RuleSet, rest: bytes)
    requires RuleSetInRange(rs)
    ensures ParseFront(LimitsBytes(rs) + (DefaultsBytes(rs.defaultActions) + (PenaltyBytes(rs.penaltySchedule) +
                       (LE(rs.deckFormat, 1) + rest))))
         == if !ReadableDefaults(rs.defaultActions) then Fail
            else Got(Front(LimitsOf(rs), Fill(map[], SortedPairs(rs.defaultActions)), rs.penaltySchedule,
                           rs.deckFormat), rest)
  {
    Widths();
    var b3 := LE(rs.deckFormat, 1) + rest;
    var b2 := PenaltyBytes(rs.penaltySchedule) + b3;
    var b1 := DefaultsBytes(rs.defaultActions) + b2;
    LimitsReadBack(rs, b1);
    DefaultsReadBack(rs.defaultActions, b2);
    PenaltyReadsBack(rs.penaltySchedule, b3);
    ReadLEOfLE(rs.deckFormat, 1, rest);
  }

  lemma BackReadsBack(rs: RuleSet, rest: bytes)
    requires RuleSetInRange(rs)
    ensures ParseBack(LE(rs.shuffleVersion, 1) + (SettlementBytes(rs.settlementRules) +
                      (RecoveryBytes(rs.recoveryRules) + rest)))
         == Got(Back(rs.shuffleVersion, ReadUnsigned(rs.settlementRules), rs.recoveryRules), rest)
  {
    Widths();
    var b2 := RecoveryBytes(rs.recoveryRules) + rest;
    var b1 := SettlementBytes(rs.settlementRules) + b2;
    ReadLEOfLE(rs.shuffleVersion, 1, b1);
    SettlementReadsBack(rs.settlementRules, b2);
    RecoveryReadsBack(rs.recoveryRules, rest);
  }

  lemma DecodeOfEncode(rs: RuleSet, rest: bytes)
    requires EncodeRuleSet(rs).Some?
    ensures DecodeRuleSet(EncodeRuleSet(rs).value + rest) == Reread(rs)
  {
    var p := RuleSetParts(rs);
    Flat8(p);
    var b4 := p[5] + (p[6] + (p[7] + rest));
    var b2 := p[1] + (p[2] + (p[3] + (p[4] + b4)));
    assert Flat(p) + rest == [1, 1] + b2;
    TwoOnes(b2);
    FrontReadsBack(rs, b4);
    BackReadsBack(rs, rest);
  }

  lemma TwoOnes(rest: bytes)
    ensures ReadLE([1, 1] + rest, 1) == Got(1, [1] + rest) && ReadLE([1] + rest, 1) == Got(1, rest)
  {
    Widths();
    ReadLEOfLE(1, 1, rest);
    ReadLEOfLE(1, 1, [1] + rest);
    assert LE(1, 1) == [1] && [1] + ([1] + rest) == [1, 1] + rest;
  }

  /** Reads back as it was written: at most 4096 bytes of UTF-8 without a byte-order mark in front. */
  ghost predicate PlainText(s: bytes) {
    |s| <= 4096 && ValidUtf8(s) && !([0xEF, 0xBB, 0xBF] <= s)
  }

  /**
   * decode(encode(rs)) == rs exactly for non-negative multipliers, a deck of 52 or 54 and plain default texts.
   * The code promises it for every rule set it encodes.
   */
  lemma RoundTrip(rs: RuleSet, rest: bytes)
    requires EncodeRuleSet(rs).Some?
    ensures DecodeRuleSet(EncodeRuleSet(rs).value + rest) == Ok(rs) <==>
              rs.settlementRules.winMultiplier >= 0 && rs.settlementRules.lossMultiplier >= 0 &&
              (rs.deckFormat == 52 || rs.deckFormat == 54) &&
              forall k :: k in rs.defaultActions ==> PlainText(k) && PlainText(rs.defaultActions[k])
  {
    DecodeOfEncode(rs, rest);
    RereadIsExact(rs);
    PlainDefaults(rs.defaultActions);
  }

  lemma PlainDefaults(m: map<bytes, bytes>)
    ensures ReadableDefaults(m) && Unmarked(m) <==> forall k :: k in m ==> PlainText(k) && PlainText(m[k])
  {
  }

  ghost predicate SurvivesDecoding(rs: RuleSet) {
    rs.settlementRules.winMultiplier >= 0 && rs.settlementRules.lossMultiplier >= 0 &&
    (rs.deckFormat == 52 || rs.deckFormat == 54) &&
    ReadableDefaults(rs.defaultActions) && Unmarked(rs.defaultActions)
  }

  lemma RereadIsExact(rs: RuleSet)
    requires RuleSetInRange(rs)
    ensures Reread(rs) == Ok(rs) <==> SurvivesDecoding(rs)
  {
    var s, m := rs.settlementRules, rs.defaultActions;
    assert ReadUnsigned(s) == s <==> s.winMultiplier >= 0 && s.lossMultiplier >= 0;
    if ReadableDefaults(m) {
      RefillRestores(m);
      SameRules(rs, Fill(map[], SortedPairs(m)), ReadUnsigned(s));
    }
  }

  lemma SameRules(rs: RuleSet, m: map<bytes, bytes>, s: SettlementRules)
    ensures rs.(defaultActions := m, settlementRules := s) == rs <==>
              m == rs.defaultActions && s == rs.settlementRules
  {
  }
}
