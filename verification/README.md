# Card table protocol: a Dafny model and its proofs

The repository is a peer-to-peer card table on a blockchain. Players join a table, commit to entropy and reveal
it, a deck is shuffled from the combined entropy, cards are revealed, a bet is placed and settled, and the turn
rotates until the table closes. Two engines (TypeScript in `packages/state-engine`, Go in `apps/relay-go`) must
agree on every step, a session in the relay records the transcript, and everything is bound by hashes over
canonical encodings. This project models that protocol and proves what it is meant to guarantee, for all inputs,
all runs and all reachable states. `dafny verify dfyconfig.toml` checks all of it.

## How it is laid out

- `Protocol`, `Bytes`, `Wrappers`, `Sequences`, `Sorting`, `Concatenation`, `Canonical`: records, byte strings, sorting
  and separable concatenation.
- `Engine`: the transition function of both engines (`Engine.Apply`, after `applyAction` and its handlers in
  `packages/state-engine/src/engine.ts`), with a parameter for the few branches where they differ.
  `GoEngine`: the handlers with loops, proved to compute it. `Replay`: folding a transcript.
- `Effects`, `Outcomes`: what each action needs and does, and the outcome by the ranks of the cards, said without the
  engine's own functions.
- `Invariants`, `Progress`, `Ledger`, `RoundMoney`, `Settlement`, `Rotation`, `ConcealedDeck`, `Agreement`: theorems
  over all runs of the state machine, and the simulation between the engines. `LongestRun`: the bound of `Progress` is
  reached.
- `Shuffle`, `FairShuffle`, `CryptoCards`: the counter-mode stream, rejection sampling, the in-place Fisher-Yates
  shuffle, what they do to a deck, and the commitments to each position.
- `Gate`, `GateChecks`, `GateInvariant`, `VisibleCards`, `Session`, `Reorg`: the verification gate, the session object,
  replay and reindexing. `Scenarios`: runs on which documented promises fail.
- `StateEncoding`, `StateWriter`, `GatedStateHash`, `RuleSetCodec`, `RuleSetDecoder`, `RuleSetBinding`, `CanonicalIO`,
  `Utf8`, `TxCodec`, `TxCursor`, `Sighash`, `SighashBinding`, `Script`, `Der`: printers and parsers, their round trips,
  and what the hashes over them bind. `Layouts`, `StateLayout`: every format and hashed input byte by byte.

SHA-256 is a parameter: any function into 32-byte strings. Where a theorem needs collision resistance it names the
finite set of inputs on which the hash must not collide, because no function from all byte strings to 32 bytes is
injective. Keys, hashes, hexadecimal and strings are given as their bytes. The hexadecimal of commitments, entropies
and reveal nonces also carries its spelling, on which the two gates differ. Exceptions and error returns are `Option`
and `Result` values; `Thrown` is a TypeScript exception that carries no protocol error code.

## Where code and documentation disagree

The model follows the code. In each case a theorem says exactly when the promise holds.

- Every round is documented to settle. Later rounds start at S6 without visible cards, reach S10 with two, and cannot
  settle (`Progress.SettleOnlyInRoundZero`, `LongestRun.LaterRoundGetsStuck`). Round 0 settles exactly when pot and
  stake can bear the outcome of its bet (`RoundMoney.RunSettles`, `RoundMoney.WinSettles`, `RoundMoney.LossSettles`,
  `Scenarios.PreviewClamps`). A table whose first joiner is not in the lowest seat skips the lower seats
  (`Rotation.RoundsRotate`, `Scenarios.LowerSeatIsSkipped`).
- Open seats and the closed table are documented to have no recovery. The code accepts a recovery in every class once
  it is mature (`Effects.RecoveryIsExact`, `Scenarios.OpenTableRecovers`).
- Timeout is documented as the default action on silence. The decision deadline is never set, so it is never accepted
  (`Progress.TimeoutIsNeverAccepted`).
- The settlement preview is documented to show what Settle would do. The Go one clamps negative amounts to zero
  instead of refusing (`Settlement.GoPreviewAddsUp`, `Scenarios.PreviewClamps`).
- The session's replay is documented to reproduce the final state. It lacks the combined entropy and the deck hash once
  they are stamped (`Session.ReplayIsExactBeforeTheDeck`, `Scenarios.ReplayMissesTheDeck`).
- A transcript is documented to be replayable by the reference engine. The relay also takes numbers outside the
  safe-integer range and upper-case hexadecimal (`Session.RelayTranscriptsConform`,
  `Scenarios.NegativeSeatDoesNotConform`, `Scenarios.UpperCaseDoesNotConform`).
- The reindex result calls orphaned actions confirmed only in the abandoned chain. The code lists all actions after the
  common prefix, also those the new chain confirms again (`Reorg.OrphansAreExact`, `Reorg.OrphansWithoutRepetition`,
  `Reorg.ReportedBeyondOrphans`, `Reorg.ReconfirmedIsReported`).
- The state hash is documented for every state. Join stores the joining key as the identity, the encoder wants 32 bytes
  there, so states with 33-byte compressed keys do not encode (`StateWriter.EngineStateEncodes`,
  `StateWriter.CompressedKeysDoNotEncode`).
- Map keys are documented to be sorted by byte. The sort is by UTF-16 code unit (`Utf8.SortsByCodeUnit`,
  `Canonical.SortIsAlmostByteOrder`, `Canonical.SortIsNotByteOrder`).
- Rule sets are documented to decode to what was encoded. Multipliers are written signed and read unsigned, reading caps
  strings at 4096 bytes which writing does not, and the text decoder drops a leading byte-order mark
  (`RuleSetDecoder.RoundTrip`).
- Script numbers are documented for every integer. The shift works on 32 bits (`Script.ScriptNumRoundTrip`).
- `ScriptWriter.op` takes any byte, also push codes that then swallow what follows (`Script.ScriptRoundTrip`).
- A `CanonicalWriter` of capacity zero never finishes growing (`CanonicalIO.GrowthEnds`): a call that would store a
  byte asks for a writer that can grow.

## Model

| member | source | states |
|---|---|---|
| `Invariants.RunKeeps` | packages/state-engine/src/engine.ts:138-189 | the invariant of every run of either engine: distinct seats, seat limit, no decision deadline, dealt positions valid, and per state class what is committed, revealed, visible and who acts |
| `Invariants.StepKeeps` | packages/state-engine/src/engine.ts:138-189 | each accepted action keeps that invariant |
| `Invariants.RotateStep` | packages/state-engine/src/engine.ts:601-649 | from the acting seat of rank i RotateTurn opens a round for the seat of rank i + 1, or closes the table exactly when i is the highest rank |
| `Effects.WrongGameOrClass` | packages/state-engine/src/engine.ts:138-168 | another game's action is stale and nothing else is; what the class does not list is refused, a recovery excepted |
| `Effects.JoinIs` | packages/state-engine/src/engine.ts:195-238 | a join is accepted exactly at open seats with the right stake, a free place and a free seat number, by default the number of players; it appends one fresh record and changes no other field |
| `Effects.JoinRefusals` | packages/state-engine/src/engine.ts:195-238 | each refusal of a join at open seats names a reason that holds |
| `Effects.LockIs` | packages/state-engine/src/engine.ts:240-262 | the lock needs the minimum of players and only moves the class |
| `Effects.CommitIs` | packages/state-engine/src/engine.ts:264-303 | a commitment is accepted exactly once per seat in its window; it changes that record alone and opens the reveal window exactly with the last one |
| `Effects.RevealIs` | packages/state-engine/src/engine.ts:305-349 | a reveal is accepted exactly once per committed seat in its window; it changes that record alone and closes the window exactly with the last one |
| `Effects.NobodyThere` | packages/state-engine/src/engine.ts:264-349 | commitments, reveals and folds without a seat, or for a seat nobody holds, are refused with their two codes |
| `Effects.ShowIs` | packages/state-engine/src/engine.ts:351-389 | where a card can be shown, that it is appended, which class follows, and that the first joiner acts first |
| `Effects.DealIs` | packages/state-engine/src/engine.ts:405-438 | a deal is accepted exactly once, at S5, with one card for each position of the deck |
| `Effects.BetIs` | packages/state-engine/src/engine.ts:440-461 | a bet is accepted exactly at S8 within the bet range and the engine's number range, raises the pot by itself and changes no stake |
| `Effects.PassIs` | packages/state-engine/src/engine.ts:463-477 | a pass ends the round without moving money |
| `Effects.FoldIs` | packages/state-engine/src/engine.ts:497-544 | a fold is accepted exactly while the folder holds an assigned card of a dealt deck; it marks that player and ends the round |
| `Effects.SettleRefusals` | packages/state-engine/src/engine.ts:546-599 | each refusal of a settlement names a reason that holds |
| `Effects.RotateCloses` | packages/state-engine/src/engine.ts:601-649 | after the highest seat the table closes, with everything else kept |
| `Effects.RotateOpens` | packages/state-engine/src/engine.ts:601-649 | otherwise the smallest seat above the acting one opens the next round, without visible cards |
| `Effects.TimeoutIs` | packages/state-engine/src/engine.ts:666-692 | a timeout is accepted exactly at S8 from a set decision deadline on |
| `Effects.CloseIs` | packages/state-engine/src/engine.ts:651-664 | closing an already closed table only empties the list of actions |
| `Effects.RecoveryIsExact` | packages/state-engine/src/engine.ts:694-715 | after any run, in every class, a recovery of the game is accepted exactly from the height the table was created with, and keeps all players, money and cards |
| `Scenarios.OpenTableRecovers` | packages/state-engine/src/engine.ts:694-715 | a run that recovers a table with open seats |
| `GoEngine.ApplyAction` | apps/relay-go/pkg/engine/engine.go:73-119 | the relay dispatcher, handler by handler, computes the shared transition function, errors included |
| `GoEngine.FindSeatLoop` | apps/relay-go/pkg/engine/engine.go:655-662 | first player of a seat, or -1 |
| `GoEngine.IndexOfLoop` | apps/relay-go/pkg/engine/engine.go:672-679 | first index of a seat number, or -1 |
| `GoEngine.Join` | apps/relay-go/pkg/engine/engine.go:134-175 | seating with its five refusals equals the transition function |
| `GoEngine.EntropyCommit` | apps/relay-go/pkg/engine/engine.go:193-228 | commit handler with its completeness loop equals the transition function |
| `GoEngine.EntropyReveal` | apps/relay-go/pkg/engine/engine.go:230-269 | reveal handler with its completeness loop equals the transition function |
| `GoEngine.CheckPositions` | packages/state-engine/src/engine.ts:423-432 | the seen-set loop accepts a deal exactly when positions are in range and pairwise different |
| `GoEngine.DealConcealed` | packages/state-engine/src/engine.ts:405-438 | the deal of either engine equals the transition function |
| `GoEngine.SurrenderLoop` | packages/state-engine/src/engine.ts:518-527 | copies the deck with exactly the holder's assigned cards surrendered; the counter is zero exactly when there is none |
| `GoEngine.Fold` | packages/state-engine/src/engine.ts:497-544 | the fold of either engine equals the transition function |
| `GoEngine.Settle` | apps/relay-go/pkg/engine/engine.go:431-474 | the balance loop with its early return equals the transition function |
| `GoEngine.SortSeats` | apps/relay-go/pkg/engine/engine.go:664-670 | the in-place sort leaves the seats in ascending order |
| `GoEngine.RotateTurn` | apps/relay-go/pkg/engine/engine.go:476-513 | cyclic successor by sorted index, wrap test and new round equal the transition function |
| `Sorting.SortInPlace` | apps/relay-go/pkg/engine/engine.go:664-670 | neighbour-swap insertion sort on the array equals the sort function, for any order |
| `Sorting.SortIsSorted` | apps/relay-go/pkg/engine/engine.go:664-670 | the result is sorted and a rearrangement of the input |
| `Sorting.SortIgnoresOrder` | apps/relay-go/internal/session/session.go:89-94 | with a strict order the result depends only on which elements are present |
| `Progress.StepProgress` | packages/state-engine/src/engine.ts:138-189 | every accepted action other than Recovery and TableClose strictly lowers the potential |
| `Progress.RunsAreBounded` | packages/state-engine/src/engine.ts:138-189 | a run from the initial state accepts at most 6 * player_count_max + 5 actions other than Recovery and TableClose |
| `LongestRun.BoundIsReached` | packages/state-engine/src/engine.ts:138-189 | the bound is exact: for every table size n >= 1 there are a rule set for n players and a run that accepts 6 * n + 5 such actions |
| `Progress.RecoveredIsFinal` | packages/state-engine/src/engine.ts:694-715 | RECOVERED is never left; only Recovery is accepted there |
| `Progress.TimeoutIsNeverAccepted` | packages/state-engine/src/engine.ts:666-692 | no state of a run has a decision deadline, so Timeout is always refused |
| `Progress.SettleOnlyInRoundZero` | packages/state-engine/src/engine.ts:546-599 | at S10 a Settle is accepted in round 0 exactly when pot and acting stake stay payable, and in later rounds nothing but Recovery is accepted |
| `LongestRun.LaterRoundGetsStuck` | packages/state-engine/src/engine.ts:601-649 | a run that stands at S10 in round 1 with two visible cards, where Settle is refused |
| `Ledger.StepConserves` | packages/state-engine/src/engine.ts:138-189 | an accepted action changes pot plus stakes by exactly its deposit: the joining stake, or the bet that debits nobody |
| `Ledger.LedgerBalances` | packages/state-engine/src/engine.ts:212-235 | in every reachable state pot + stakes at risk == stake_amount * seated players + accepted bets |
| `Ledger.PayIsOneUpdate` | packages/state-engine/src/engine.ts:581-592 | seat uniqueness makes a settlement touch exactly one player |
| `Outcomes.OutcomeByRanks` | packages/state-engine/src/penalties.ts:20-52 | equal ranks and neighbouring ranks of the first two cards are the penalties; otherwise the third rank strictly between them wins and anything else loses |
| `Outcomes.FirstTwoCommute` | packages/state-engine/src/penalties.ts:34-48 | the first two cards can be exchanged |
| `Ledger.SettlePaysTheActingSeat` | packages/state-engine/src/penalties.ts:59-90 | an accepted settlement moves one amount between the pot and the acting seat, by the ranks of the three cards: multiplied pot for a win or loss, a fixed penalty for equal or neighbouring ranks; no other field changes |
| `Ledger.RunStaysSolvent` | packages/state-engine/src/engine.ts:566-599 | pot and stakes never go below zero |
| `RoundMoney.PotIsTheBet` | packages/state-engine/src/engine.ts:562-566 | in every run, while round 0 is between its bet and its settlement, the pot is exactly the one bet accepted so far and lies in the bet range; before, it is empty; all stakes are still the rule set's |
| `RoundMoney.RunSettles` | packages/state-engine/src/engine.ts:546-599 | after any run a Settle is accepted exactly at S10 of round 0 and exactly when what the ranks of the three cards make of the log's one bet leaves that bet and the rule set's stake payable |
| `RoundMoney.WinSettles` | packages/state-engine/src/penalties.ts:59-90 | in Go a won bet settles exactly up to a win multiplier of one, as long as a negative multiplier leaves the stake payable |
| `RoundMoney.LossSettles` | packages/state-engine/src/penalties.ts:59-90 | in Go a lost bet settles exactly when the stake covers it and the loss multiplier is at least -1 |
| `Settlement.BalanceLoop` | apps/relay-go/pkg/engine/engine.go:582-593 | the append loop of the preview computes the clamped balances |
| `Settlement.PreviewShowsSettlement` | packages/state-engine/src/engine.ts:726-757 | an accepted settlement has exactly the pot and balances the preview shows |
| `Settlement.PreviewIsExact` | packages/state-engine/src/engine.ts:726-757 | in TypeScript the preview succeeds exactly when the settlement is accepted |
| `Settlement.PreviewByRanks` | apps/relay-go/pkg/engine/engine.go:567-612 | the amounts a preview shows, by the ranks of the cards, negative ones as zero |
| `Settlement.PreviewRefuses` | packages/state-engine/src/engine.ts:726-757 | which states have no preview, with the codes |
| `Settlement.GoPreviewAddsUp` | apps/relay-go/pkg/engine/engine.go:567-612 | the Go preview of a complete round never fails; it adds up to the table's money exactly when pot and acting stake can pay, which is exactly when the settlement is accepted, and to more otherwise |
| `Scenarios.PreviewClamps` | apps/relay-go/pkg/engine/engine.go:567-612 | a run of one player with stake 1 and a lost bet of 5: the preview shows more than the table holds and the settlement is refused |
| `Rotation.ActorsAreConsecutive` | packages/state-engine/src/engine.ts:601-649 | the acting seats of any run are the seats of consecutive ranks, without gap or repetition |
| `Rotation.RoundsRotate` | packages/state-engine/src/engine.ts:370-379 | round number is the rank distance from the first joiner; no seat acts twice; at close the last seat has acted, and all have exactly when the first joiner holds the lowest seat |
| `Scenarios.LowerSeatIsSkipped` | packages/state-engine/src/engine.ts:370-379 | a run in which seat 1 joins before seat 0: the table closes and only seat 1 has acted |
| `ConcealedDeck.PositionsFill` | packages/state-engine/src/engine.ts:423-432 | a deal that passes the check has every position |
| `ConcealedDeck.DeckIsComplete` | packages/state-engine/src/engine.ts:405-438 | in every reachable state with a dealt deck each position occurs exactly once |
| `ConcealedDeck.FoldSurrenders` | packages/state-engine/src/engine.ts:518-527 | an accepted fold surrenders every assigned card of the folder's key, at least one, changes no other card, and leaves none of that key assigned |
| `ConcealedDeck.RunKeepsDeck` | packages/state-engine/src/engine.ts:497-544 | over any run commitments, ciphertexts, outpoints and holders stay, and a card is surrendered exactly when it was assigned and the log folds a seat with its holder's key |
| `Agreement.StepErases` | apps/relay-go/pkg/engine/engine.go:73-119 | every engine step commutes with erasing combined entropy and deck hash |
| `Agreement.StepCarries` | apps/relay-go/pkg/engine/engine.go:73-119 | the engine never writes those two fields |
| `Agreement.EnginesAgree` | packages/state-engine/src/engine.ts:138-189 | from a state in the safe-integer range TypeScript accepts exactly what Go accepts with a result in range, with the same state |
| `Agreement.RunsAgree` | packages/state-engine/src/replay.ts:38-66 | whatever TypeScript replays Go replays to the same state |
| `Agreement.GoRunsReplay` | packages/state-engine/src/replay.ts:38-66 | a log that Go accepts replays in TypeScript, to the same state, exactly when every number stayed a safe integer |
| `Replay.ReplayGo` | apps/relay-go/pkg/engine/replay.go:10-23 | final state, or state and index of the first refused action |
| `Replay.ReplayTypeScript` | packages/state-engine/src/replay.ts:38-66 | the replay loop equals the fold, a short height list repeating its last entry |
| `Replay.PaddedAt` | packages/state-engine/src/replay.ts:46-57 | each action is replayed at its own height, or at the last one where the list is short |
| `Replay.RunConcat` | apps/relay-go/pkg/engine/replay.go:10-23 | replaying a concatenation continues the first replay |
| `Gate.EntropiesFromShares` | packages/state-engine/src/verify.ts:129-140 | the entropies combined depend only on the seat-to-entropy shares |
| `Gate.SharesFixOrder` | packages/state-engine/src/verify.ts:130-130 | with distinct seats equal share sets sort to the same list |
| `GateChecks.CommitGate` | packages/state-engine/src/verify.ts:51-56 | a commitment passes the gate exactly when it is 32 bytes in a spelling the gate reads |
| `GateChecks.RevealGate` | packages/state-engine/src/verify.ts:57-90 | an entropy passes exactly when it is 32 bytes and hashing it with the last 32 bytes of the revealer's key and the game gives the stored commitment; the code of each refusal |
| `GateChecks.RevealWithoutSeat` | packages/state-engine/src/verify.ts:58-70 | an entropy without a seat, or for a seat nobody holds, is refused with its code |
| `GateChecks.ShowGate` | packages/state-engine/src/verify.ts:91-95 | no card is shown before entropies are combined |
| `GateChecks.ShowRefusals` | packages/state-engine/src/verify.ts:91-111 | the codes with which a shown card is refused |
| `GateChecks.StampOrRefuse` | packages/state-engine/src/verify.ts:129-151 | with all entropies revealed the deck of their seed is stamped, or refused exactly when that format and version have no deck |
| `GateChecks.GateAddsTheStamp` | packages/state-engine/src/verify.ts:112-127 | a passed action takes the engine's step; the last reveal adds the two stamped fields and changes nothing else |
| `GateInvariant.GateStepKeeps` | packages/state-engine/src/verify.ts:44-127 | every gated step keeps: reveals open their commitments, and before S5 nothing is stamped, from S5 on the deck the shares determine is |
| `GateInvariant.GatedStatesAreSafe` | packages/state-engine/src/verify.ts:44-151 | in every reachable gated state: S3 has an uncommitted seat, S4 has all committed and one unrevealed, entropy and deck hash are absent before S5 and from S5 the determined ones |
| `GateInvariant.DeckIgnoresOrder` | packages/state-engine/src/verify.ts:129-151 | two gated runs of either engine ending with the same shares have the same entropy and deck, whatever the order of joins, commits and reveals |
| `GateInvariant.GateRunRemembers` | packages/state-engine/src/verify.ts:44-151 | stored commitments, entropies, keys and seats are never replaced |
| `VisibleCards.GateOpensOneCard` | packages/state-engine/src/verify.ts:91-111 | the gate passes a card reveal exactly when position is in range, ordinal is the shuffled one there and both nonces are the derived ones (and, in the relay, the nonces are hexadecimal) |
| `VisibleCards.VisibleCardsAreShuffled` | packages/state-engine/src/verify.ts:44-127 | in every gated run each visible card was revealed at a position where the deck shuffled from the players' entropies has its ordinal |
| `Session.CollectEntropies` | apps/relay-go/internal/session/session.go:95-105 | the push loop returns all entropies in seat order or the first defect |
| `Session.MaterialiseDeck` | apps/relay-go/internal/session/session.go:87-117 | sort in place, collect, combine and commit compute the stamped state or the error |
| `Session.Session.constructor` | apps/relay-go/internal/session/session.go:30-40 | a new session has the initial state and an empty transcript |
| `Session.Session.Submit` | apps/relay-go/internal/session/session.go:56-82 | the live state stays the gated fold of the transcript, nonces stay distinct and equal to the seen set, heights match in length, and a refused call changes nothing |
| `Session.Session.Replay` | apps/relay-go/internal/session/session.go:229-241 | with the session's own hash and deadline the bare replay succeeds with the live state less its two stamped fields |
| `Session.BareRunErases` | apps/relay-go/internal/session/session.go:229-241 | bare replay of any gated transcript reaches the gated state with the two fields erased |
| `Session.ReplayIsExactBeforeTheDeck` | apps/relay-go/internal/session/session.go:226-241 | bare replay gives the live state exactly while no entropy has been combined |
| `Scenarios.ReplayMissesTheDeck` | apps/relay-go/internal/session/session.go:226-241 | a gated run with a combined entropy, which its bare replay does not reproduce |
| `Session.GatesAgree` | packages/state-engine/src/verify.ts:44-127 | from states in range: a gate refuses every action whose hexadecimal it does not read; on an action both read, TypeScript's gate accepts exactly what the relay's accepts with a result in range, with the same state |
| `Session.RelayTranscriptsConform` | packages/state-engine/src/replay.ts:84-123 | a transcript the relay accepted replays under the TypeScript gate, to the same state, exactly when every number stayed a safe integer and every entropy commitment and entropy is in lower-case hexadecimal |
| `Scenarios.NegativeSeatDoesNotConform` | apps/relay-go/internal/session/session.go:56-82 | a join at seat -1: the relay accepts it, the conformance replay refuses it |
| `Scenarios.UpperCaseDoesNotConform` | packages/state-engine/src/verify.ts:51-56 | a commitment in upper-case hexadecimal with all numbers safe: the relay accepts it, the conformance replay refuses it |
| `Session.ReplayWithVerification` | packages/state-engine/src/replay.ts:95-123 | the conformance loop equals the gated fold |
| `Reorg.DeepestCommonAncestor` | apps/relay-go/internal/chain/reorg.go:28-38 | the longest common prefix of hashes |
| `Reorg.LongestIsLongest` | apps/relay-go/internal/chain/reorg.go:24-28 | no longer shared prefix exists, and no other length qualifies |
| `Reorg.Flatten` | apps/relay-go/internal/chain/reorg.go:42-52 | actions with heights in block order |
| `Reorg.ConfirmedAt` | apps/relay-go/internal/chain/reorg.go:42-52 | action j of block i is confirmed at that block's height, behind all actions of the blocks before it |
| `Reorg.NothingElseConfirmed` | apps/relay-go/internal/chain/reorg.go:42-52 | and nothing else is confirmed |
| `Reorg.Reindex` | apps/relay-go/internal/chain/reorg.go:78-106 | state or error equal one replay of the whole new chain whatever the old chain was; ancestor is the longest common prefix; the reported actions are those of the old blocks behind it |
| `Reorg.ReportedBeyondOrphans` | apps/relay-go/internal/chain/reorg.go:54-64 | where a block hash names one block: the reported list less the actions the new chain confirms again is exactly the list of actions confirmed only in the old chain, in order |
| `Reorg.OrphansAreExact` | apps/relay-go/internal/chain/reorg.go:54-64 | where a block hash names one block: the reported list is the promised one exactly when no old block behind the fork has an action that the new chain confirms |
| `Reorg.OrphansWithoutRepetition` | apps/relay-go/internal/chain/reorg.go:54-64 | with no action twice in the old chain, no reported action is in the new chain exactly when all common actions lie in the common prefix |
| `Reorg.ReconfirmedIsReported` | apps/relay-go/internal/chain/reorg.go:78-106 | two one-block chains with the same join: the new chain replays, and the join is reported as orphaned although it is confirmed |
| `Shuffle.Sha256CounterPrg.NextByte` | packages/crypto-cards/src/shuffle.ts:28-37 | the buffered read yields the next byte of the plain stream: byte k mod 32 of the hash of seed and counter k div 32 |
| `Shuffle.Sha256CounterPrg.NextWord` | packages/crypto-cards/src/shuffle.ts:50-54 | four reads make the little-endian word at the position |
| `Shuffle.Sha256CounterPrg.DrawUniform` | packages/crypto-cards/src/shuffle.ts:39-59 | the first word below the limit, reduced, and the position after it |
| `Shuffle.Sha256CounterPrg.Sample` | packages/crypto-cards/src/shuffle.ts:49-58 | the rejection loop ends and returns the first word below the limit |
| `Shuffle.HitsExactly` | packages/crypto-cards/src/shuffle.ts:47-57 | how many of the first n words reduce to each value |
| `FairShuffle.StreamBytes` | packages/crypto-cards/src/shuffle.ts:28-37 | byte i of block c of the stream is byte i of the hash of the seed and c in four bytes, low byte first |
| `FairShuffle.WordBytes` | packages/crypto-cards/src/shuffle.ts:50-54 | a word is the number below 2^32 whose four bytes, low byte first, are the next of the stream |
| `FairShuffle.NextWordDecides` | packages/crypto-cards/src/shuffle.ts:49-58 | on any stream a draw gives v four bytes on exactly when its next word gives v, and otherwise passes over that word |
| `FairShuffle.GivenByRow` | packages/crypto-cards/src/shuffle.ts:47-57 | a word gives v exactly when it stands at place v of a complete row of max + 1 words |
| `FairShuffle.DrawIsUniform` | packages/crypto-cards/src/shuffle.ts:43-57 | counted through the draw itself, each value from 0 to max is given by the same number of the 2^32 words; these add up to the largest multiple of max + 1 up to 2^32, more than half of it |
| `FairShuffle.ShuffleIsItsRun` | packages/crypto-cards/src/shuffle.ts:66-83 | the shuffle gives a deck exactly when there is a run of exchanges from the ordered deck to it, with one draw after the other from the start of the stream |
| `FairShuffle.ShuffleRefuses` | packages/crypto-cards/src/shuffle.ts:24-72 | other deck sizes and seed lengths are refused |
| `Shuffle.RecoverUndoesPermute` | packages/crypto-cards/src/shuffle.ts:76-81 | distinct draws give distinct decks: the draws can be read off the result |
| `Shuffle.PermuteUndoesRecover` | packages/crypto-cards/src/shuffle.ts:76-81 | every rearrangement is reached by some draws |
| `Shuffle.ShuffleIsBijection` | packages/crypto-cards/src/shuffle.ts:73-81 | for every size the loop is a bijection from draw vectors to permutations |
| `Shuffle.FisherYates` | packages/crypto-cards/src/shuffle.ts:76-81 | the in-place loop computes the permutation of its draws |
| `Shuffle.ShuffleCanonicalDeck` | packages/crypto-cards/src/shuffle.ts:66-83 | the whole shuffle equals its specification, refusals included |
| `CryptoCards.DomainsAreSeparate` | packages/crypto-cards/src/hash.ts:23-27 | the byte inputs of all seven kinds of hash are injective and pairwise disjoint |
| `Layouts.EntropyIsHashed` | packages/crypto-cards/src/entropy.ts:28-39 | an entropy commitment is the hash of tag 5, entropy, player and game |
| `Layouts.EntropiesAreHashed` | packages/crypto-cards/src/entropy.ts:60-69 | combined entropy is the hash of tag 7, the compact count and the entropies in order |
| `Layouts.DeckIsHashed` | packages/crypto-cards/src/deck.ts:89-116 | row i commits to the i-th shuffled card under the two derived nonces, and the deck hash covers the commitments in order, all in terms of the hash and its bytes |
| `CryptoCards.CommitmentBinds` | packages/crypto-cards/src/entropy.ts:28-39 | an entropy commitment opens to one entropy, player and game |
| `CryptoCards.CombineLoop` | packages/crypto-cards/src/entropy.ts:60-69 | count and push; refuses the empty list and any entry that is not 32 bytes |
| `CryptoCards.ConstantTimeEquals` | packages/crypto-cards/src/entropy.ts:72-79 | the OR of XORs is zero exactly for equal strings |
| `CryptoCards.BuildDeckCommitment` | packages/crypto-cards/src/deck.ts:89-116 | the row loop computes the specified deck |
| `CryptoCards.RevealOpensOneCard` | packages/crypto-cards/src/deck.ts:130-136 | at every position a reveal passes exactly for the shuffled ordinal with the two derived nonces |
| `CryptoCards.DeckHashBindsDeck` | packages/crypto-cards/src/deck.ts:106-108 | equal deck hashes come from equal decks |
| `Bytes.ReadVarintOfVarint` | packages/tx-builder/src/encode.ts:29-49 | every varint below 2^64 reads back and is minimal |
| `Bytes.VarintOfReadVarint` | packages/tx-builder/src/encode.ts:121-127 | re-encoding a varint never lengthens it and restores it exactly when it was minimal |
| `Layouts.CompactSizesRead` | packages/tx-builder/src/encode.ts:121-127 | a compact size is read in every form, also in a longer one than it needs |
| `Layouts.SafeReads` | packages/protocol-types/src/serialisation.ts:195-231 | the rule-set reader refuses numbers above 2^53 - 1 and booleans other than 0 and 1 |
| `Concatenation.ConcatParts` | packages/protocol-types/src/serialise.ts:113-123 | copying parts at running offsets gives their concatenation |
| `Concatenation.FlatSplits` | packages/protocol-types/src/serialise.ts:113-123 | concatenations of separable parts are equal only part by part |
| `Canonical.SortedKeysUnique` | packages/protocol-types/src/serialise.ts:147-147 | the sorted keys are the same for every insertion order |
| `Canonical.SortIsAlmostByteOrder` | packages/protocol-types/src/rule-set-codec.ts:80-81 | the default sort is byte order except exactly where the first difference is between U+E000..U+FFFF and a supplementary character |
| `Canonical.SortIsNotByteOrder` | packages/protocol-types/src/rule-set-codec.ts:80-81 | a pair of strings that the sort and byte order put differently |
| `Utf8.SortsByCodeUnit` | packages/protocol-types/src/rule-set-codec.ts:80-81 | comparing the UTF-8 bytes as the model does is comparing the strings by UTF-16 code unit, as the default sort does, for all strings |
| `Utf8.DecodesExactlyTheEncodings` | packages/protocol-types/src/serialisation.ts:246-249 | the strict decoder accepts exactly the encodings of strings of Unicode scalar values and returns the one string behind the bytes |
| `Utf8.ScalarBytes` | packages/protocol-types/src/serialisation.ts:246-249 | which numbers are scalar values, and the bits of each in one to four bytes |
| `StateEncoding.EncodingIdentifiesState` | packages/protocol-types/src/serialise.ts:190-215 | with anything behind them two encodings are equal exactly when the states agree on every field the encoder keeps and the remainders are equal |
| `StateEncoding.StateHashBinds` | packages/protocol-types/src/serialise.ts:221-227 | equal state hashes exactly for states equal on the kept fields |
| `StateLayout.StateIs` | packages/protocol-types/src/serialise.ts:127-215 | the bytes of a state, a player and a card, field by field in order, down to the single byte |
| `StateWriter.StateHashIdentifies` | packages/protocol-types/src/serialise.ts:221-227 | every state in range has a state hash, and two of them are equal exactly when the states agree on the encoded fields |
| `StateWriter.EncodeList` | packages/protocol-types/src/serialise.ts:103-112 | count and pushed parts |
| `StateWriter.EncodePreferences` | packages/protocol-types/src/serialise.ts:146-154 | the sorted map, for every insertion order |
| `StateWriter.EncodePlayer` | packages/protocol-types/src/serialise.ts:127-144 | the player encoding, or a refusal where a hash or key is not 32 bytes |
| `StateWriter.EncodeDeck` | packages/protocol-types/src/serialise.ts:178-183 | the optional concealed deck, or a refusal |
| `StateWriter.EncodeState` | packages/protocol-types/src/serialise.ts:190-215 | the loops and concatenations compute the specified encoding, and refuse exactly where a hash or key is not 32 bytes |
| `StateWriter.EngineStateEncodes` | packages/state-engine/src/engine.ts:212-235 | the state a run reaches encodes exactly when game id and rule-set hash are 32 bytes and so is everything the accepted actions brought: joining keys, commitments, entropies and the hashes of dealt cards |
| `StateWriter.CompressedKeysDoNotEncode` | packages/state-engine/src/engine.ts:212-235 | no state of a run in which a player joined with a 33-byte key encodes |
| `GatedStateHash.GatedStateEncodes` | packages/protocol-types/src/serialise.ts:190-215 | the state a gated run reaches encodes exactly when game id, rule-set hash and joining keys are 32 bytes and so are the hashes and keys of dealt cards |
| `TxCodec.Encode` | packages/tx-builder/src/encode.ts:162-171 | the pushed parts give the wire bytes, or a refusal for an outpoint id that is not 32 bytes |
| `Layouts.TransactionIs` | packages/tx-builder/src/encode.ts:129-171 | the bytes of a transaction, input by input and output by output, down to the single byte |
| `Layouts.WhichTransactionsEncode` | packages/tx-builder/src/encode.ts:140-171 | only an outpoint id that is not 32 bytes is refused |
| `TxCodec.DecodeEncode` | packages/tx-builder/src/encode.ts:162-200 | decode(encode(tx)) == tx for every transaction in range |
| `TxCodec.EncodeDecode` | packages/tx-builder/src/encode.ts:174-200 | for all bytes that decode: re-encoding decodes to the same transaction, is never longer, and equals the bytes exactly when all varints were minimal |
| `TxCursor.Cursor.ReadFixed` | packages/tx-builder/src/encode.ts:103-119 | a fixed-width read returns the number and moves past it, or refuses |
| `TxCursor.Cursor.ReadVarInt` | packages/tx-builder/src/encode.ts:121-127 | a varint read returns the number and moves past it, or refuses |
| `TxCursor.Cursor.ReadInputs` | packages/tx-builder/src/encode.ts:178-186 | the input loop reads exactly count inputs from the cursor |
| `TxCursor.Cursor.ReadOutputs` | packages/tx-builder/src/encode.ts:188-194 | the output loop reads exactly count outputs from the cursor |
| `TxCursor.Decode` | packages/tx-builder/src/encode.ts:174-200 | the cursor-moving decoder equals the parser, trailing bytes refused |
| `Sighash.HashPrevoutsLoop` | packages/tx-builder/src/sighash.ts:45-53 | hash of all outpoints, or zeros |
| `Sighash.HashSequenceLoop` | packages/tx-builder/src/sighash.ts:55-62 | hash of all sequence numbers, or zeros |
| `Sighash.HashOutputsLoop` | packages/tx-builder/src/sighash.ts:64-79 | hash of all outputs, of the matching one, or zeros |
| `Sighash.SighashOf` | packages/tx-builder/src/sighash.ts:90-120 | the digest from the three loops, with its two refusals |
| `Layouts.DigestIs` | packages/tx-builder/src/sighash.ts:35-120 | for every hash type the digest is the hash, twice, of a string fixed by its slices, whose three hash fields are hashed twice or zero by bit 7 and the low five bits; refused exactly without bit 6 or without the input |
| `Sighash.IgnoresUnlockingScripts` | packages/tx-builder/src/sighash.ts:90-120 | for every hash type transactions equal up to unlocking scripts have the same digest |
| `Sighash.SigningOrderIsFree` | packages/tx-builder/src/sighash.ts:80-89 | inputs signed in any order get the scripts computed over the unsigned transaction |
| `SighashBinding.DigestBindsExactlyTheCovered` | packages/tx-builder/src/sighash.ts:41-120 | for every hash type two digests are equal exactly when the fields that type covers are |
| `SighashBinding.AllForkIdBindsTheTransaction` | packages/tx-builder/src/sighash.ts:41-120 | under any one ALL+FORKID type without ANYONECANPAY equal digests mean the same transaction up to unlocking scripts, script code, value and spent input, and conversely |
| `CanonicalIO.GrowthEnds` | packages/protocol-types/src/serialisation.ts:38-46 | the doubling loop reaches the required size exactly when the capacity is not zero |
| `CanonicalIO.CanonicalWriter.constructor` | packages/protocol-types/src/serialisation.ts:23-26 | an empty buffer of any capacity, which can grow exactly when the capacity is not zero |
| `CanonicalIO.CanonicalWriter.Ensure` | packages/protocol-types/src/serialisation.ts:38-46 | room for the extra bytes, contents unchanged |
| `CanonicalIO.CanonicalWriter.WriteU64` | packages/protocol-types/src/serialisation.ts:81-97 | appends the eight little-endian bytes of a safe integer from its two halves, or refuses |
| `CanonicalIO.CanonicalWriter.WriteI32` | packages/protocol-types/src/serialisation.ts:99-104 | appends two's complement, or refuses |
| `CanonicalIO.CanonicalWriter.WriteVarint` | packages/protocol-types/src/serialisation.ts:107-123 | appends the shortest of four forms, or refuses |
| `CanonicalIO.CanonicalWriter.WriteText` | packages/protocol-types/src/serialisation.ts:133-142 | appends the length and the string |
| `CanonicalIO.CanonicalReader.ReadU64` | packages/protocol-types/src/serialisation.ts:214-223 | two words as one number, refused above the safe range |
| `CanonicalIO.CanonicalReader.ReadVarint` | packages/protocol-types/src/serialisation.ts:225-231 | reads any varint form, refused above the safe range |
| `CanonicalIO.CanonicalReader.ReadText` | packages/protocol-types/src/serialisation.ts:240-249 | a string of at most 4096 bytes that are UTF-8, without a leading byte-order mark; anything else is refused |
| `RuleSetCodec.EncodeDefaults` | packages/protocol-types/src/rule-set-codec.ts:79-89 | the sorted map for every insertion order, or a refusal |
| `RuleSetCodec.EncodeWithWriter` | packages/protocol-types/src/rule-set-codec.ts:121-153 | the writer ends up holding the specified bytes, and refuses exactly where a field is out of range |
| `StateLayout.RulesAre` | packages/protocol-types/src/rule-set-codec.ts:121-153 | the bytes of a rule set, field by field in order, down to the single byte |
| `StateLayout.WhichRulesEncode` | packages/protocol-types/src/rule-set-codec.ts:29-153 | the encoder accepts exactly the rule sets within these numeric limits |
| `RuleSetDecoder.DecodeDefaults` | packages/protocol-types/src/rule-set-codec.ts:91-100 | the loop of assignments equals the parser, later entries overwriting |
| `RuleSetDecoder.DecodeWithReader` | packages/protocol-types/src/rule-set-codec.ts:156-208 | the reader-moving decoder equals the parser with its three error codes |
| `RuleSetDecoder.HeadRefusals` | packages/protocol-types/src/rule-set-codec.ts:156-175 | the refusals of an unknown version, an unknown game type and a missing head |
| `RuleSetDecoder.DecodeOfEncode` | packages/protocol-types/src/rule-set-codec.ts:121-208 | what decoding gives for every encoded rule set and any bytes behind it |
| `RuleSetDecoder.RoundTrip` | packages/protocol-types/src/rule-set-codec.ts:121-208 | decode(encode(rs)) == rs exactly when both multipliers are non-negative, the deck is 52 or 54, and every default-action string is UTF-8 of at most 4096 bytes without a leading byte-order mark |
| `RuleSetBinding.EncodingIdentifiesRules` | packages/protocol-types/src/rule-set-codec.ts:121-153 | the encoding of all encodable rule sets is injective and marks its own end |
| `RuleSetBinding.RuleSetHashBinds` | packages/protocol-types/src/rule-set-codec.ts:211-215 | equal rule-set hashes exactly for equal rule sets |
| `Script.EncodeScriptNum` | packages/script-templates/src/writer.ts:12-27 | the shift loop and sign rule compute the specified bytes, for every integer |
| `Script.ScriptNumRoundTrip` | packages/script-templates/src/writer.ts:12-27 | a script number means n exactly when abs(n) < 2^32 |
| `Script.ScriptNumIsMinimal` | packages/script-templates/src/writer.ts:11-27 | the encoding is minimal exactly when n is zero or abs(n) is not a multiple of 2^32 |
| `Script.MinimalIsUnique` | packages/script-templates/src/writer.ts:11-27 | every minimal number below 2^32 is the one the writer makes |
| `Script.ShortcutIsAPush` | packages/script-templates/src/writer.ts:102-109 | the OP_N shortcut writes what pushing the encoded number would |
| `Script.ScriptWriter.PutOp` | packages/script-templates/src/writer.ts:44-50 | appends one byte, or refuses |
| `Script.ScriptWriter.PushData` | packages/script-templates/src/writer.ts:62-100 | appends the specified one of seven push forms |
| `Script.ScriptWriter.PushNumber` | packages/script-templates/src/writer.ts:103-109 | appends the push of the encoded number |
| `Script.PushIsShortest` | packages/script-templates/src/writer.ts:52-61 | no other push of the same data is as short |
| `Layouts.PushIs` | packages/script-templates/src/writer.ts:62-100 | the seven forms of a push, byte for byte |
| `Script.ScriptRoundTrip` | packages/script-templates/src/writer.ts:30-109 | parsing the written items gives them back exactly when no push code was written as a bare opcode |
| `Script.WalkSeesItems` | packages/script-templates/__tests__/templates.test.ts:47-76 | the opcode walk sees one opcode per item and never a payload byte |
| `Der.BigintToBytes` | packages/tx-builder/src/sign.ts:75-83 | the hexadecimal detour gives the shortest big-endian form |
| `Der.DerInt` | packages/tx-builder/src/sign.ts:97-114 | strip and pad compute the specified INTEGER |
| `Der.DerSequence` | packages/tx-builder/src/sign.ts:116-125 | the two INTEGERs inside a SEQUENCE |
| `Der.ReadDer` | packages/tx-builder/src/sign.ts:127-141 | the moving offset computes the two bodies, or refuses |
| `Der.BodyIsMinimal` | packages/tx-builder/src/sign.ts:97-108 | each INTEGER body is minimal, non-negative and the same number |
| `Der.SignatureRoundTrip` | packages/tx-builder/src/sign.ts:75-141 | decoding and padding gives r and s as 32 big-endian bytes each, exactly when both are below 2^256 |
| `Layouts.SignatureIs` | packages/tx-builder/src/sign.ts:97-125 | a signature is tag 0x30 around two INTEGERs of tag 0x02 with the shortest non-negative bodies of r and s |
| `Der.StrictDerIsCanonical` | packages/tx-builder/src/sign.ts:97-125 | any strict pair of 256-bit INTEGERs is byte for byte what the encoder writes |

## Left out

- secp256k1, ECDSA, ECIES, AES-GCM and the inside of SHA-256: library code; the hash is a parameter.
- Relay and WebSocket servers, SPV and RPC clients, command-line tools, the React client and its store: I/O and plumbing.
- The session's mutex: each call of Submit or Replay is one step here, as the lock makes it.
- Fields of a signed action that no modelled code reads: round number, referenced state hash, signature, successor
  commitment.
- Engine steps that legality would forbid but the code does not: bets, passes and folds by a seat that is not acting,
  repeated card positions, hash-chain linkage (the state hash stays zero, so chainsFrom compares constants).
- Go int64 overflow and JavaScript rounding outside the range checks the code makes: numbers are unbounded integers with
  exactly those checks.
- Shuffle.ShuffleCanonicalDeck: follows the TypeScript stream, which ends by exception after 2^32 blocks; the Go counter
  wraps there instead.
- Lone surrogates: a string is given as the UTF-8 bytes it is written as. A record key named __proto__ is an ordinary
  key here.
- Hexadecimal digits: for commitments, entropies and reveal nonces the model keeps whether they are lower-case,
  upper-case or malformed; keys and game ids are taken as well-formed, although TypeScript's lenient parser also reads
  some malformed text that the relay refuses. States keep bytes, not the spelling they came in.
- Where a theorem needs it, a rule set's deck size is positive and its amounts are non-negative, as their declared types
  say; the engines do not test them again.
- Memory limits: the doubling buffer and the arrays grow as far as asked.
- DataView reads in the transaction decoder that leave a subarray but stay inside its backing buffer: the model refuses
  at the read, the code at the final length test.
- SighashBinding.DigestBindsExactlyTheCovered: for SINGLE it also assumes that the hash does not produce 32 zero bytes on
  the named inputs, because the code writes zeros where no output matches.
- Script templates, fallback enumeration, nSequence helpers, the conflict rule, the mempool tracker, the hub and card
  names: finite or easy, they would add no hard property.
