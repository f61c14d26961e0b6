# CumulusVPN: verified models

A Dafny model of the parts of CumulusVPN that decide who has paid, who gets paid and where packets go,
with proofs of what they promise. Four groups of modules:

- **Gateway entitlement.** `PriceSchedule`, `GrantRules`, `PaymentFold`, `Entitlement`, `EntitlementRuns`,
  `Base58`, `Paging`. Every gateway derives `paid_until` by folding payment transactions under a
  height-indexed price schedule, through a cursor, an overlap, a dedup map, hot reprices and a snapshot.
  The class `Entitlement.Engine` carries as ghost state what it folded and what the processes it resumed
  from folded; its `Valid()` says that the map, the cursor and the dedup map are what that makes them. Its
  methods' contracts are relations between states, and `EntitlementRuns` composes them into whole runs.
- **Bridge settlement and subscriptions.** `PaymentCodes` for codes and memos; `Treasury`, `Payments`,
  `Settlement` for the queue, the broadcaster and the confirmer as interleaved steps over tables, network
  and chain, `SettlementOwners` for whose payment a transaction is, `SettlementProgress` for nothing being
  stuck; `Subscriptions`, `AppleStore`, `GooglePlay` for the store calls, `Purchases` for what each of them
  answers, binds and queues; `SubscriptionWrites`, `SubscriptionRuns` for who owns a store subscription, calls
  cut short between any two of their database statements included.
- **Client route compiler.** `Intervals`, `CidrCover`, `Text`, `IpText`, `SplitRoutes`, `CidrGrammar` for what
  its texts mean, `Punycode`.
- **Gateway enrollment.** `EnrollLimit`, `PeerTables`, `Enrollment`, `EnrollmentRuns`.

`Common` and `Arithmetic` are shared vocabulary. A method with a loop or with state is proved against a
function of its inputs or its old state, and the properties are lemmas about that function.

## What is assumed

- Amounts and prices are whole zats; the 1e-9 epsilon of the gateway is one tenth of a zat. Times are
  whole nanoseconds, durations wrap at 64 bits as Go's do. Token balances are whole nanoseconds of refill.
- The payment history is fixed: distinct nonempty txids, stable heights, oldest first. A read above a
  height shows, in any order, only transactions of the history above it (and unconfirmed ones), and shows
  everything up to 40 blocks below the height the source reported. `Paging.ReadIsReliable` derives this from
  pages of a listing that lags the chain by less than that, and `Paging.StillReadIsGapless` the gapless reads
  of `EntitlementRuns` from one that also stands still. A snapshot file is one an earlier process wrote.
- A height the bridge's chain source reports never exceeds the real one; a lookup that finds a confirmed
  transaction tells the truth, and one that finds nothing does so at least when the reported tip is more
  than 20 blocks past expiry. The network may mine any transaction ever built until it expires. Unspent
  outputs are whatever the source offers. Only `SettlementOwners.ConfirmedIsOwn` assumes that they do not
  include an output a mined transaction has spent.
- Clock, randomness, the store's and Play's answers, the device's refusals and the UUID derived from a code
  are parameters. One reading of the clock serves one atomic step.
- A removal that rolls an enrollment back, or evicts a peer, succeeds. Enrollments, syncs and evictions are
  atomic.
- The token-bucket clock is monotonic; a sweep's tick may be stale but not from the future.

## Where the code and its words differ

The model follows the code.

- `stack` multiplies days into an int64 of nanoseconds. A grant of more than 106,751 days wraps and can take
  time away, from prepaid and expired codes alike, or leave a first payment expired
  (`GrantRules.LosesTimeIff` says exactly when, `GrantRules.LongGrantLosesTime` gives inputs); "never lowers"
  is proved for grants that fit.
- `zatsForDays` says its rounding never reaches another day. It can below 33 zats a month
  (`GrantRules.SizedDays` gives the exact condition, `GrantRules.SizedTooCheap` an input).
- A snapshot drops expired codes as if they read like absent ones. They do exactly when the next payment is
  dated at or after the expiry or reaches the prepaid cap by itself (`PaymentFold.DroppedCodeIff`); with the
  first of these for every payment folded after a save, restarts change no answer
  (`PaymentFold.RestartAnswers`, `EntitlementRuns.RunAnswers`).
- `Extends` is called exactly the condition for judging the past alike. It is sufficient
  (`PriceSchedule.ExtendsKeepsEffective`) but not necessary (`PriceSchedule.LateRiseJudgesAlike`). The exact
  condition for any two schedules is that their first prices agree, and both give one effective price
  wherever an entry of either starts or its grace window ends, at or below the height
  (`PriceSchedule.JudgesAlikeIff`; for an appended one its own entries are enough,
  `PriceSchedule.AppendedJudgesAlikeIff`).
- `AddressTxs` says oldest first. If more than one page of new payments arrives between two of its requests
  the result can be out of order (`Paging.FloodBreaksOrder`); up to one page it is in order (`Paging.InOrder`),
  and `Paging.InOrderIff` says exactly for which pages it is.
- `markConfirmed` releases a transaction's inputs because the chain no longer offers them. The outputs come
  from the explorer, which may stall while the node already knows the transaction. The next payment of the
  same code and length then builds it over again, and one payment in FLUX confirms both
  (`SettlementOwners.TwoPaymentsOneTransaction`). Every transaction not dead is one payment's own exactly if
  no write-ahead built a mined one (`SettlementOwners.OwnedIff`), and so two confirmed payments have two
  transactions if no spent output is offered (`SettlementOwners.ConfirmedIsOwn`).
- A Google renewal is said to credit the code the subscription was moved to. Its grant waits for an
  acknowledgement, and a move meanwhile leaves it with the code bound before
  (`SubscriptionRuns.GoogleGrantPaysOwnerIff`, `SubscriptionRuns.MoveMeanwhile`).
- A transfer that dies between its grant and its rebind is said to lose nothing, as the retry lands on the same
  key. It does (`SubscriptionRuns.AppleRetry`, `SubscriptionRuns.GoogleRetry`), and so does a transfer to
  another code: the days then stay with the first.
- `delta >> 1` in the Punycode bias goes through a 32-bit integer, so a delta of 2^31 or more is not halved
  (`Punycode.ShiftHalvesIff`). The encoder of the RFC is right on every label (`Punycode.RfcRoundTrip`). This
  one is right exactly on the labels where each such delta, the first and the last aside, gives the delta
  after it the digits it would have had (`Punycode.DecodesIff`): on all without such deltas
  (`Punycode.SafeDecodes`), so on all of up to 1,927 code points (`Punycode.ShortLabels`). A label of 1,929
  that does not decode is in `Punycode.LongLabelMisread`.
- The IPv6 parser takes a dotted quad before `::` as well, which section 2.2 of RFC 4291 does not. That is all
  it takes beyond the RFC (`IpText.AcceptedIff`, `IpText.BeyondRfcIff`).
- Loading the peer cache keeps keys distinct but not addresses; a repeated address is accepted and two peers
  then claim it (`PeerTables.RestoreIsInverseIff`, `PeerTables.RepeatedAddress`).

## Model

| member | source | states |
|---|---|---|
| PriceSchedule.Index | gateway/internal/price/price.go:148-154 | the loop finds the entry in force: the last that has started, entry 0 before all |
| PriceSchedule.ComputeAt | gateway/internal/price/price.go:157 | the price in force, as the specification of `At` used everywhere else |
| PriceSchedule.LowestIsMinimum | gateway/internal/price/price.go:159-160 | the specified effective price is the true minimum of the prices in force over the window: a lower bound that some height reaches |
| PriceSchedule.ComputeEffective | gateway/internal/price/price.go:161-171 | the backward walk over overlapping entries computes that minimum over the 8640-block window |
| PriceSchedule.EffectiveSteady | bridge/src/price.ts:116-121 | the effective price moves only at an entry start or 8640 blocks after one |
| PriceSchedule.HighestIsMaximum | bridge/src/price.ts:116-121 | the specified maximum bounds every effective price of the range and is reached in it |
| PriceSchedule.MaxEffective | bridge/src/price.ts:122-132 | trying only the start and the boundaries inside the range finds the maximum over every height of it |
| PriceSchedule.ExtendsKeepsEffective | gateway/internal/price/price.go:190-208 | if `s` extends `prev` after a height, both give the same effective price at every height up to it |
| PriceSchedule.JudgesAlikeIff | gateway/internal/price/price.go:192-197 | any two schedules give the same effective price at every height up to any given one if and only if their first prices agree and the effective prices do at the entry starts and grace-window ends of both up to there |
| PriceSchedule.AppendedJudgesAlikeIff | gateway/internal/price/price.go:188-197 | for a schedule that appends to the other its own entries decide |
| PriceSchedule.LateRiseJudgesAlike | gateway/internal/price/price.go:192-197 | an appended dearer entry at or below the height, refused by the guard, re-judges nothing while its grace window lasts |
| PriceSchedule.LateDropRejudges | gateway/internal/price/price.go:204-206 | an appended entry at or below the height and cheaper than its window does re-judge: the guard's reason |
| GrantRules.PaysADayIffDays | gateway/internal/entitle/entitle.go:518-528 | the validity threshold passes exactly the amounts worth at least one day |
| GrantRules.CheaperBuysMore | gateway/internal/entitle/entitle.go:364-377 | an amount is worth no fewer days at a lower price |
| GrantRules.MonthsBuyThirtyDays | gateway/internal/entitle/entitle.go:354-371 | a whole multiple of the price buys that many months of 30 days, exactly from 4 zats a month up |
| GrantRules.SizedDays | bridge/src/grants.ts:20-31 | a payout sized at a price is worth at least the days there, and exactly them if and only if rounding plus epsilon stays below the price |
| GrantRules.SizedExactly | bridge/src/grants.ts:20-31 | from 33 zats a month up it is worth exactly the days |
| GrantRules.SizedTooCheap | bridge/src/grants.ts:24-25 | at 31 zats a month one day's payout is worth two |
| GrantRules.SettlementCoversDays | bridge/src/worker/broadcaster.ts:53-57 | an amount sized over [tip, tip + 40] passes the gateway's test and grants at least the days at whatever height of that range it is mined, exactly the days where the sizing price is in effect and at least 33 zats |
| GrantRules.StacksAsClamp | gateway/internal/entitle/entitle.go:496-508 | any sequence of grants to a code acts on its `paid_until` as x -> min(max(x + D, A), B), D, A and B computed from the sequence alone, wrapped durations included |
| GrantRules.ShortGrantFits | gateway/internal/entitle/entitle.go:503 | a grant of up to 106,751 days does not wrap |
| GrantRules.LosesTimeIff | gateway/internal/entitle/entitle.go:498-508 | a grant lowers a code's `paid_until`, whatever it was, if and only if that was beyond the cap, or the duration wraps negative and the code was still paid or expired later than `now` plus the wrapped duration |
| GrantRules.LongGrantLosesTime | gateway/internal/entitle/entitle.go:498-508 | 106,752 days take a prepaid code below `now`, an expired one further back, and leave a first payment expired when granted |
| GrantRules.StackingNeverLowers | gateway/internal/entitle/entitle.go:496-508 | with non-decreasing times and durations that fit, a grant never lowers `paid_until` and the result never passes the last time plus 720 days |
| PaymentFold.MemoParseLoop | gateway/internal/entitle/entitle.go:540-561 | the memo loop accepts exactly one CVPN1 memo with a nonempty trimmed code |
| PaymentFold.MemoIff | gateway/internal/entitle/entitle.go:530-561 | a payment names a code if and only if exactly one of its memos starts with CVPN1: and the rest, trimmed, is that code and not empty |
| PaymentFold.TrimmedIs | gateway/internal/entitle/entitle.go:550 | trimming takes off the white space around and nothing else |
| PaymentFold.FoldIsStacked | gateway/internal/entitle/entitle.go:364-377 | code by code, the ledger is all the payments to that code stacked in order, each on what the ones before left; a code is in it if and only if some payment credits it |
| PaymentFold.FoldIsClamp | gateway/internal/entitle/entitle.go:496-508 | every `paid_until` of the ledger in closed form: one clamp computed from the code's own payments |
| PaymentFold.PayingAdds | gateway/internal/entitle/entitle.go:496-508 | a payment's days come on top of what is still paid or of its own block time, up to 720 days from that, and change no other code |
| PaymentFold.PayingNeverLowers | gateway/internal/entitle/entitle.go:496-508 | over histories in chain order with grants that fit, one more payment lowers no code's `paid_until`, and none is paid past 720 days from the last block |
| PaymentFold.ExtendsKeepsFold | gateway/internal/entitle/entitle.go:399-410 | a schedule that extends another after a height gives every history up to there the same ledger |
| PaymentFold.SameAnswers | gateway/internal/entitle/snapshot.go:127-129 | a ledger that agrees with the full one up to a cutoff answers every premium question from the cutoff on alike |
| PaymentFold.DroppedCodeIff | gateway/internal/entitle/snapshot.go:127-129 | a dropped code is credited as if kept if and only if its next payment is at or after the expiry or reaches the cap by itself |
| PaymentFold.SaveLoadAgrees | gateway/internal/entitle/snapshot.go:108-111 | saving and loading loses exactly the codes expired at the save |
| PaymentFold.GrantAgrees | gateway/internal/entitle/entitle.go:364-377 | folding one more on-time transaction keeps a trimmed ledger in agreement |
| PaymentFold.FoldFromAgrees | gateway/internal/entitle/snapshot.go:62-65 | folding on-time payments into a trimmed ledger keeps it in agreement with the full one |
| PaymentFold.PromptIsOnTime | gateway/internal/entitle/snapshot.go:127-129 | payments dated at or after the expiry at which any earlier save dropped their code are on time for the trimmed ledger as it moves on |
| PaymentFold.ResumedAgrees | gateway/internal/entitle/snapshot.go:62-65 | after any number of saves and loads the ledger is the full fold without codes expired at the last save, in whole seconds, given only such payments |
| PaymentFold.RestartAnswers | gateway/internal/entitle/snapshot.go:62-65 | so from the last save on every premium answer is that of the fold that never stopped |
| PaymentFold.OneRestart | gateway/internal/entitle/snapshot.go:62-65 | one restart in closed form: fold p, save, load, fold q answers as fold p + q, if q pays no code before the expiry at which the save dropped it |
| Entitlement.ScanKeepsCursor | gateway/internal/entitle/entitle.go:203-244 | a scan re-establishes the cursor invariant at the reported height: nothing older than 40 blocks below it is missing (above the floor of a file from before the overlap), each transaction once, `seen` names exactly the folded ones of the overlap |
| Entitlement.GaplessScan | gateway/internal/entitle/entitle.go:203-244 | a read that shows everything up to a height leaves the chain-ordered history up to there folded |
| Entitlement.RebuiltCursor | gateway/internal/entitle/entitle.go:450-494 | a trusted re-read satisfies the cursor invariant afresh, without a floor, and holds everything folded before that a floor did not hide from `seen` |
| Entitlement.Engine.constructor | gateway/internal/entitle/entitle.go:113-122 | an engine starts with nothing folded and its invariant established |
| Entitlement.Engine.Reprice | gateway/internal/entitle/entitle.go:148-159 | a handed-over schedule waits as the pending one |
| Entitlement.Engine.ApplyOne | gateway/internal/entitle/entitle.go:324-345 | one transaction is granted and remembered if and only if it was not folded before |
| Entitlement.Engine.ApplyTxs | gateway/internal/entitle/entitle.go:318-349 | a batch folds, in order, exactly the confirmed transactions up to the limit not folded before; the count is that of the credited ones |
| Entitlement.Engine.Scan | gateway/internal/entitle/entitle.go:209-244 | one poll as a relation of states, every error and lagging-height path included: which transactions of the read are folded in which order, the ledger, the cursor, the dedup map, the tip and the count; the invariant is kept |
| Entitlement.Engine.Advance | gateway/internal/entitle/entitle.go:233-243 | the batch applied, the cursor moved, `seen` pruned below the overlap |
| Entitlement.Engine.Replay | gateway/internal/entitle/entitle.go:470-484 | the rebuild loop computes the plain fold of the re-read, each txid once |
| Entitlement.Engine.Rebuild | gateway/internal/entitle/entitle.go:450-494 | a rebuild is handed out if and only if the re-read is trustworthy, and is then the fold of at least everything folded before, what a floor hides aside |
| Entitlement.Engine.ApplyPending | gateway/internal/entitle/entitle.go:379-445 | keep, swap, rebuild or retry exactly as the schedules and the re-read decide, with the whole new state of each; after a rebuild exactly the re-read is folded; what was folded stays folded and the invariant holds under the schedule installed |
| Entitlement.PendingComesTo | gateway/internal/entitle/entitle.go:379-445 | a pending schedule that only appends takes effect at once above the cursor, else with the first trustworthy re-read, and waits until then unless a newer one came; one that edits is dropped; the cursor never falls, and a ledger is never replaced by the fold of nothing |
| Entitlement.Engine.Save | gateway/internal/entitle/snapshot.go:130-191 | the file's contents, and that they are what the processes so far, this one ending here, hand on |
| Entitlement.Engine.Load | gateway/internal/entitle/snapshot.go:71-123 | a snapshot is accepted if and only if version, address, cursor and price history fit, whole new state either way; the invariant holds over what its writers folded, under the new schedule, for a file without `seen` with its cursor as the floor |
| Entitlement.Boot | gateway/internal/entitle/snapshot.go:62-70 | a process starts on a usable snapshot, or on any problem from height 0, with the invariant either way |
| Entitlement.LedgerIsFold | gateway/internal/entitle/entitle.go:313-317 | an engine that did not resume from a snapshot holds the in-order fold of what it folded under its schedule |
| Entitlement.SameChainSameLedger | gateway/internal/entitle/entitle.go:258-259 | two gateways with gapless reads up to one height and one schedule hold the same map |
| Entitlement.AnswersAreTheFolds | gateway/internal/entitle/snapshot.go:127-129 | any engine in a valid state, restarts or not, answers from its last save on as the plain fold of everything ever folded, given only payments dated at or after the expiry at which an earlier save dropped their code |
| Entitlement.RestartAgrees | gateway/internal/entitle/snapshot.go:62-65 | under that condition on the payments alone, a gateway that restarted any number of times gives every code the premium answer of one that never stopped, once both have folded the history up to one height |
| EntitlementRuns.StepKeeps | gateway/internal/entitle/entitle.go:203-494 | every poll, reprice, installation, checkpoint and restart on any file ever written keeps the invariant of the engine and of all the files |
| EntitlementRuns.PollLeavesBelowFloor | gateway/internal/entitle/snapshot.go:42-44 | what a file without `seen` lacks at or below its cursor no poll adds |
| EntitlementRuns.RunKeeps | gateway/internal/entitle/entitle.go:81-93 | in every world of every run, files of earlier deployments included: each transaction folded at most once, none 40 blocks or more below the cursor and above the floor missing, the dedup map that of the overlap, the ledger the fold |
| EntitlementRuns.RunFoldsPrefix | gateway/internal/entitle/entitle.go:203-208 | with gapless reads, in every world of every run exactly a prefix of the chain is folded, in chain order, at most 40 blocks behind the cursor, rebuilds and restarts included, files found at the start too if they hold such a prefix |
| EntitlementRuns.RunAnswers | gateway/internal/entitle/entitle.go:313-317 | every premium answer along such a run is that of the plain fold of a chain prefix at most 40 blocks behind the cursor, under the schedule in force, whatever reprices, rebuilds and restarts came before, given only payments dated at or after the expiry at which an earlier save dropped their code |
| Base58.Base58Encode | gateway/internal/entitle/entitle.go:570-601 | the in-place division loop, the in-place reversal and the prefix together write one '1' per leading zero byte and then the base-58 digits of the value |
| Base58.Remainders | gateway/internal/entitle/entitle.go:576-591 | dividing the buffer until it is used up collects the base-58 digits of its value, lowest first |
| Base58.DivideBy58 | gateway/internal/entitle/entitle.go:581-586 | one pass over the buffer leaves the quotient in it and returns the remainder; at most one leading byte becomes zero |
| Base58.RoundTrip | gateway/internal/entitle/entitle.go:570-601 | reading the digits in base 58, leading '1's as zero bytes, gives back the input bytes |
| Base58.Injective | gateway/internal/entitle/entitle.go:570-601 | different byte strings get different codes |
| Base58.NoSurplusDigit | gateway/internal/entitle/entitle.go:571-574 | exactly one '1' per leading zero byte and no further leading zero digit |
| Base58.CodeLength | bridge/src/codes.ts:20-35 | every 20-byte hash gets a code of 20 to 28 characters |
| Paging.AddressTxs | gateway/internal/fluxnode/fluxnode.go:250-280 | the paging loop, early stop, dedup and failures computes the specified read |
| Paging.ReverseInPlace | gateway/internal/fluxnode/fluxnode.go:406-411 | the swaps reverse the array |
| Paging.OnlyOnceAndAbove | gateway/internal/fluxnode/fluxnode.go:240-249 | whatever the source answers, only confirmed transactions above the cursor come back, each txid once |
| Paging.NothingMissed | gateway/internal/fluxnode/fluxnode.go:245-249 | everything confirmed above the cursor in the list when paging began is returned even if new items push the pages along |
| Paging.StopsAtCursor | gateway/internal/fluxnode/fluxnode.go:263-268 | once a page holds a confirmed transaction at or below the cursor the read ends, and no further page matters nor whether it could be had |
| Paging.ReadIsReliable | gateway/internal/fluxnode/fluxnode.go:240-249 | a read of a listing that lags the chain by less than the overlap is one the entitlement scan may rely on, new payments arriving meanwhile included |
| Paging.InOrder | gateway/internal/fluxnode/fluxnode.go:240-242 | the result is oldest first if between two requests at most one page of new items arrives |
| Paging.InOrderIff | gateway/internal/fluxnode/fluxnode.go:240-242 | on any newest-first pages the result is oldest first if and only if no page read holds a payment that is new to the read, above the cursor, and above one it already had |
| Paging.FloodBreaksOrder | gateway/internal/fluxnode/fluxnode.go:240-242 | 51 payments between the first two requests give a result that is not oldest first |
| Paging.ExactWhenStill | gateway/internal/fluxnode/fluxnode.go:240-242 | on a list that stands still the read is exactly its confirmed transactions above the cursor, oldest first |
| Paging.StillReadIsGapless | gateway/internal/fluxnode/fluxnode.go:240-242 | on a listing of the chain up to a height at most the overlap behind, standing still, the read is exactly the history above the cursor up to there, in chain order |
| Treasury.SelectUtxos | bridge/src/flux/utxo.ts:21-39 | filter, sort and accumulate compute the specified selection, with its total or the total available |
| Treasury.SelectFailsIff | bridge/src/flux/utxo.ts:30-38 | selection fails if and only if nothing is usable or the usable outputs fall short together |
| Treasury.SelectFewest | bridge/src/flux/utxo.ts:1-6 | no choice of usable outputs that covers a positive amount uses fewer inputs |
| Treasury.SelectedUsable | bridge/src/flux/utxo.ts:26-28 | every selected output was offered and is held by no transaction in flight |
| Treasury.ValueConserved | bridge/src/flux/tx.ts:66-98 | a transaction is built if and only if the inputs cover amount and fee; payment, change and a fee in [feeZats, feeZats + 1000) then add up to the inputs, and it expires 40 blocks past the tip |
| PaymentCodes.EveryCodeIsValid | bridge/src/codes.ts:20-34 | the code the gateway derives from any 20-byte hash passes the bridge's validation |
| PaymentCodes.MemoRoundTrip | bridge/src/codes.ts:36-42 | the gateway's memo parser reads back every valid code from the memo the bridge writes |
| PaymentCodes.PaidIsWorth | gateway/internal/entitle/entitle.go:351-377 | a transaction with such a memo is worth to its code the days its amount buys at the effective price |
| PaymentCodes.SettlementIsWorth | bridge/src/worker/broadcaster.ts:53-67 | what the bridge sizes over [tip, tip + 40] for a valid code, the gateway credits to that code with at least the days at whatever height of the range it is mined, exactly them where the sizing price is in effect and at least 33 zats |
| Payments.PaymentsRepo.InsertIdempotent | bridge/src/db/payments.ts:46-55 | inserts one row, or none for a (rail, event_key) already recorded |
| Payments.PaymentsRepo.NextPending | bridge/src/db/payments.ts:58-64 | returns the pending row of lowest id whose retry time has come, None only if there is none |
| Payments.PaymentsRepo.MarkBroadcast | bridge/src/db/payments.ts:83-105 | row and ledger after the write-ahead |
| Payments.PaymentsRepo.MarkConfirmed | bridge/src/db/payments.ts:107-123 | the row confirmed; exactly the outpoints its transaction held are released |
| Payments.PaymentsRepo.ResetExpired | bridge/src/db/payments.ts:131-141 | the row pending again, the stale transaction forgotten and exactly its outpoints released |
| Payments.PaymentsRepo.RecordFailure | bridge/src/db/payments.ts:144-149 | attempts and exponential backoff up to six hours |
| Payments.Backoff | bridge/src/db/payments.ts:143-149 | a failed attempt is counted; the next waits a minute at first, twice as long after each further one, at most six hours |
| Payments.BroadcasterTick | bridge/src/worker/broadcaster.ts:47-111 | one tick against every chain answer: what is sent is durable in row and ledger first; a chain error, a shortfall or an invalid code only parks the row |
| Payments.ConfirmerTick | bridge/src/worker/confirmer.ts:34-79 | one tick judges each row by its answer (confirm, reset, resend, wait); exactly the persisted bytes of rows to resend are sent |
| Settlement.MineKeeps | bridge/src/worker/confirmer.ts:55-61 | only a transaction that is still its row's current one can be mined |
| Settlement.BuiltMeans | bridge/src/worker/broadcaster.ts:53-68 | a built transaction carries the memo of the row's valid code and the sized amount, from outputs no transaction in flight holds |
| Settlement.StepKeeps | bridge/src/worker/broadcaster.ts:69-98 | every atomic step of broadcaster, confirmer, network, crash and redeploy keeps the invariant of rows, ledger and transactions |
| Settlement.RunKeeps | bridge/src/worker/confirmer.ts:34-79 | the invariant holds in every world of every run |
| Settlement.AtMostOneLive | bridge/src/db/payments.ts:73-105 | in every world of every run, crashes, lost responses, resets and repriced redeploys included, of two transactions of one (rail, event_key) one can no longer be mined; at most one is ever mined |
| Settlement.ConfirmedIsPaid | bridge/src/worker/confirmer.ts:52-54 | a confirmed payment is settled by a mined transaction built for it, which the gateway's judgement credits, at the height it was mined, to exactly its code with at least the bought days, exactly them where the sizing price is in effect and at least 33 zats |
| Settlement.LedgerIsUnion | bridge/src/db/payments.ts:98-103 | the outpoint ledger is always the disjoint union of the inputs of the broadcast rows |
| Settlement.OneRowPerKey | bridge/src/db/payments.ts:41-45 | one row per (rail, event_key) for ever; a duplicate delivery changes nothing |
| SettlementOwners.OwnedIff | bridge/src/db/payments.ts:116-121 | along every run, no transaction that is mined or could still be belongs to two payments if and only if no write-ahead so far built one that was mined already |
| SettlementOwners.ConfirmedIsOwn | bridge/src/db/payments.ts:116-121 | if no output spent by a mined transaction is ever offered, two confirmed payments are settled by two different transactions |
| SettlementOwners.TwoPaymentsOneTransaction | bridge/src/flux/chain.ts:37-52 | for every deployment and any two payments of one valid code and length, a run with a stalled explorer in which one mined transaction confirms both |
| SettlementProgress.FateOfBroadcast | bridge/src/worker/confirmer.ts:49-76 | what every lookup answer does to a broadcast row: settled when in a block, its own bytes pushed again while it can still be mined, given up 20 blocks past expiry, else nothing |
| SettlementProgress.ExpiredComesBack | bridge/src/worker/confirmer.ts:55-61 | a broadcast transaction not on the chain 20 blocks past its expiry is given up: its row due again at once, every output it held free |
| SettlementProgress.CanBeConfirmed | bridge/src/worker/confirmer.ts:34-79 | from every world of every run, whatever failed, expired, crashed or was repriced before, a payment for a valid code can be continued to confirmed, by its transaction in flight unless that is dead, then by a new one |
| Subscriptions.RemainingDaysCover | bridge/src/transfers.ts:26-36 | zero if and only if the period is over, else the fewest whole days covering the rest, or the whole plan |
| Subscriptions.TransferKeyInjective | bridge/src/transfers.ts:38-47 | different subscriptions or period ends never share a transfer key |
| Subscriptions.GrantQueuesOnce | bridge/src/grants.ts:33-50 | a grant answered queued adds a row of that key, code and days that was not there; any other answer changes nothing |
| Subscriptions.RecordGrant | bridge/src/grants.ts:33-50 | validates, sizes and enqueues: the new tables and the answer |
| Subscriptions.SubscriptionsRepo.Upsert | bridge/src/db/subscriptions.ts:49-66 | bound, of that plan and active; the transfer clock, Apple's period, every other subscription, the tokens and the audit log untouched |
| Subscriptions.SubscriptionsRepo.Rebind | bridge/src/db/subscriptions.ts:86-117 | binding, clock and audit row in one step; returns the previous code |
| Subscriptions.SubscriptionsRepo.NoteAppleExpiry | bridge/src/db/subscriptions.ts:132-140 | the noted period never moves back, and is at least the one noted |
| Subscriptions.SubscriptionsRepo.SetStatus | bridge/src/db/subscriptions.ts:148-154 | the status of an existing row; no row is added, no owner or clock changed |
| Subscriptions.SubscriptionsRepo.MapAppleToken | bridge/src/db/subscriptions.ts:156-163 | the token's code |
| AppleStore.AppleRail.VerifyPurchase | bridge/src/rails/apple.ts:73-101 | every refusal in order, else the token mapped and the owner's settlement |
| AppleStore.AppleRail.ClaimPurchase | bridge/src/rails/apple.ts:117-192 | settles for the owner or an unowned purchase, else refuses, waits out the 30 days or moves |
| AppleStore.AppleRail.AdminRebind | bridge/src/rails/apple.ts:200-239 | the support move, with or without the rest of the period |
| AppleStore.AppleRail.HandleNotification | bridge/src/rails/apple.ts:242-305 | status changes and renewals, the owner resolved first |
| AppleStore.AppleRail.Settle | bridge/src/rails/apple.ts:379-405 | bind, note the period, and one grant per transaction or per test subscription |
| AppleStore.AppleRail.TransferTo | bridge/src/rails/apple.ts:418-447 | the rest of the period queued under its own key, then the rebind |
| Purchases.AppleVerifyLaw | bridge/src/rails/apple.ts:73-101 | a verification is credited if and only if it is of a known product for the caller's token with both ids; it binds the owner and queues 30 days for the monthly product and 360 for the annual one under the transaction's id, or the sandbox probe |
| Purchases.AppleClaimLaw | bridge/src/rails/apple.ts:103-192 | a claim of a running, unrevoked purchase settles an unowned or own subscription, refuses another's, names the day it may move, or moves it with the rest of its period to the caller; any other claim is refused and changes nothing |
| Purchases.AppleRebindLaw | bridge/src/rails/apple.ts:194-239 | when a support rebind moves a subscription, alone or with the rest of its period, and that it else changes nothing |
| Purchases.AppleNotifyLaw | bridge/src/rails/apple.ts:242-305 | a granting notification credits the owner, if one is known, as a purchase; the others set the status of that subscription alone |
| GooglePlay.GoogleRail.VerifyPurchase | bridge/src/rails/google.ts:76-110 | every refusal in order, else bound to the current owner, the grant to follow |
| GooglePlay.GoogleRail.ClaimPurchase | bridge/src/rails/google.ts:124-165 | settles for the owner or an unowned purchase, else refuses, waits out the 30 days or moves |
| GooglePlay.GoogleRail.AdminRebind | bridge/src/rails/google.ts:172-203 | the support move, with or without the rest of the period |
| GooglePlay.GoogleRail.TransferTo | bridge/src/rails/google.ts:315-343 | the rest of the period queued under its own key, then the rebind |
| GooglePlay.GoogleRail.FinishSettle | bridge/src/rails/google.ts:352-374 | the grant after the acknowledgement: one per order or per test subscription |
| Purchases.AppleRefusalsAreTrue | bridge/src/rails/apple.ts:73-305 | whichever reason an Apple verification, claim, support rebind or notification gives for refusing holds of the purchase and the tables |
| Purchases.GoogleVerifyLaw | bridge/src/rails/google.ts:76-110 | a purchase is bound if and only if its code is valid, it is active, of a known base plan, with an order and, where asked, made for that code; to the owner if it was moved |
| Purchases.GoogleCreditLaw | bridge/src/rails/google.ts:351-374 | after the acknowledgement 30 days are queued for the monthly base plan and 360 for the annual one under the order's id, or the test probe |
| Purchases.GoogleClaimLaw | bridge/src/rails/google.ts:112-165 | a claim settles an unowned or own subscription, refuses another's, names the day it may move, or moves it with the rest of its period |
| Purchases.GoogleRebindLaw | bridge/src/rails/google.ts:167-203 | when a support rebind moves a subscription, and that it else changes nothing |
| Purchases.GoogleRenewalLaw | bridge/src/rails/google.ts:242-254 | a renewal is for the code bound, whatever account the purchase names, else for that account's |
| Purchases.GoogleRefusalsAreTrue | bridge/src/rails/google.ts:76-203 | whichever reason a Google verification, claim or support rebind gives for refusing holds of the purchase and the tables |
| SubscriptionRuns.CallIsItsWrites | bridge/src/rails/apple.ts:407-447 | every store call is exactly its database statements in their order |
| SubscriptionRuns.StepMoves | bridge/src/rails/apple.ts:361-377 | every step of either rail, a call cut short after any of its statements included, leaves every moved subscription with its owner and clock, a resubscribed one aside, or is one audited move |
| SubscriptionRuns.OwnerKeeps | bridge/src/rails/google.ts:345-349 | over any run, replays, re-verifications, renewals, stale notifications, crashes and calls cut short included, a moved subscription keeps its owner until the next audited move or, on Apple, a purchase made after the move |
| SubscriptionRuns.FreshPurchaseTakesOver | bridge/src/rails/apple.ts:350-377 | a verified purchase binds its buyer unless the subscription was moved since |
| SubscriptionRuns.AppleMoveBinds | bridge/src/rails/apple.ts:440 | a move binds its target |
| SubscriptionRuns.RenewalPaysOwner | bridge/src/rails/apple.ts:273-303 | what a renewal notification queues goes to the code the subscription is bound to |
| SubscriptionRuns.OwnerIsLastMoved | bridge/src/rails/google.ts:242-246 | over any run a Google subscription that was ever moved belongs to the target of its last audited move |
| SubscriptionRuns.OwnerIsLastBound | bridge/src/rails/google.ts:242-246 | over any run a subscription is the code's that the last statement to bind it bound it to |
| SubscriptionRuns.GoogleSettleBinds | bridge/src/rails/google.ts:351-360 | a settle binds the code it will pay, the owner's for a moved subscription |
| SubscriptionRuns.GoogleGrantPaysOwnerIff | bridge/src/rails/google.ts:351-374 | whatever happens while a settle waits, its grant goes to the code it bound, which is the owner's if and only if the last statement meanwhile that bound the subscription, if any, bound it to that code |
| SubscriptionRuns.MovedGrantPaysOwnerIff | bridge/src/rails/google.ts:351-374 | of a subscription moved before, only a further move can be that statement |
| SubscriptionRuns.MoveMeanwhile | bridge/src/rails/google.ts:351-374 | a support move while a settle waits leaves the grant with the code bound before |
| SubscriptionRuns.UserMovesAreSpaced | bridge/src/transfers.ts:49-59 | over any run a user's move comes at least 30 days after the move before it, whoever made that |
| SubscriptionRuns.StepHandsOver | bridge/src/transfers.ts:10-15 | a transfer grant that is queued, test purchases aside, is the first under its period's key, for 1 day up to the plan's days, to the code the transfer is to, which the subscription then is bound to unless the process died before the rebind |
| SubscriptionRuns.HandedOverOnce | bridge/src/transfers.ts:38-47 | over any run each (subscription, period end) is handed over at most once, support rebinds and interrupted transfers included |
| SubscriptionRuns.AppleRetry | bridge/src/rails/apple.ts:407-417 | once a period's key is recorded, any further transfer of that period moves the subscription and pays nothing |
| SubscriptionRuns.GoogleRetry | bridge/src/rails/google.ts:304-343 | the same on Google |
| SubscriptionRuns.StepKeepsKeys | bridge/src/db/payments.ts:46-55 | no step of either rail loses a recorded event key |
| Intervals.MergeIntervals | clients/core-ts/src/split.ts:290-306 | sort and coalesce compute the specified merge |
| Intervals.MergedMeaning | clients/core-ts/src/split.ts:288-289 | merging gives the canonical list (sorted, disjoint, gaps of at least one) of exactly the addresses covered |
| Intervals.CanonicalUnique | clients/core-ts/src/split.ts:288-289 | a canonical list is determined by the addresses it covers |
| Intervals.SubtractIntervals | clients/core-ts/src/split.ts:309-330 | the loops compute the specified difference |
| Intervals.SubtractedMeaning | clients/core-ts/src/split.ts:308-330 | the result is canonical and covers exactly the addresses of a that b does not |
| CidrCover.FittingSize | clients/core-ts/src/split.ts:343-348 | the halving loop finds the block size |
| CidrCover.PickIsLargest | clients/core-ts/src/split.ts:332-335 | it is the largest power of two aligned at the start that fits |
| CidrCover.IntervalToCidrs | clients/core-ts/src/split.ts:338-354 | the loop terminates with the specified greedy cover |
| CidrCover.GreedyTiles | clients/core-ts/src/split.ts:338-354 | the blocks are valid prefixes that follow one another from the start to the end of the interval without gap or overlap |
| CidrCover.GreedyMaximal | clients/core-ts/src/split.ts:332-337 | every aligned block inside the interval lies inside one block of the cover |
| CidrCover.CidrsMeaning | clients/core-ts/src/split.ts:372-374 | over a canonical list the blocks are sorted, disjoint, aligned and cover exactly its addresses |
| CidrCover.MinimalCover | clients/core-ts/src/split.ts:335-336 | no exact cover by CIDR blocks, overlapping or not, of a canonical list uses fewer |
| CidrCover.MinimalSingle | clients/core-ts/src/split.ts:335 | nor of a single interval |
| IpText.ParseIpv4Loop | clients/core-ts/src/split.ts:142-159 | the octet loop computes the specified parse |
| IpText.Ipv4RoundTrip | clients/core-ts/src/split.ts:235-237 | every IPv4 address reads back from its text |
| IpText.Ipv4Spelling | clients/core-ts/src/split.ts:140-141 | every accepted IPv4 text is the formatted one, so each address has one spelling |
| IpText.AcceptsFull | clients/core-ts/src/split.ts:161-202 | every text of eight groups in full, the last two also as a dotted quad, is read to its value (section 2.2 of RFC 4291) |
| IpText.AcceptsCompressed | clients/core-ts/src/split.ts:161-202 | in every text with one `::` it stands for the missing zero groups, a dotted quad at the end of a side included |
| IpText.AcceptedIff | clients/core-ts/src/split.ts:161-202 | a text is read as a value if and only if it denotes it by section 2.2 of RFC 4291 or is compressed with a dotted quad before the `::` |
| IpText.BeyondRfcIff | clients/core-ts/src/split.ts:161-202 | an accepted text is outside the RFC if and only if a dot precedes its `::` |
| IpText.AcceptsLeadingQuad | clients/core-ts/src/split.ts:178-184 | such texts: the quad of any address followed by `::`, its value, and that the RFC does not have it |
| IpText.FormatIpv6Loop | clients/core-ts/src/split.ts:240-270 | the loops find the longest zero run, leftmost on a tie, and print around it |
| IpText.Ipv6Canonical | clients/core-ts/src/split.ts:239-270 | the text is the canonical one of section 4 of RFC 5952, and no other text is |
| IpText.Ipv6RoundTrip | clients/core-ts/src/split.ts:239-270 | every IPv6 address reads back from its text |
| SplitRoutes.ParsedIsValid | clients/core-ts/src/split.ts:204-233 | a parsed prefix has its host bits zero and fits its family |
| SplitRoutes.CidrRoundTrip | clients/core-ts/src/split.ts:272-275 | parsing undoes formatting for every canonical prefix of either family |
| SplitRoutes.CanonicalSpelling | clients/core-ts/src/split.ts:204-205 | formatting what was parsed keeps the prefix and is idempotent |
| SplitRoutes.MergedStringsMeaning | clients/core-ts/src/split.ts:643-646 | the merged strings cover exactly the addresses of the input strings |
| SplitRoutes.MergedStringsMinimal | clients/core-ts/src/split.ts:643-646 | no list of CIDR strings with the same coverage is shorter |
| SplitRoutes.MergedDependsOnAddresses | clients/core-ts/src/split.ts:643-646 | the merged strings depend only on the addresses covered |
| SplitRoutes.SubtractedStringsMeaning | clients/core-ts/src/split.ts:648-656 | the output covers exactly the addresses of a that b does not |
| SplitRoutes.ComplementStringsMeaning | clients/core-ts/src/split.ts:376-404 | for 'v4', 'v6' and 'both', the complement covers exactly the addresses of the families asked for that are not excluded |
| SplitRoutes.ComplementTwice | clients/core-ts/src/split.ts:376-404 | complementing both families twice gives the canonical merge of the input |
| SplitRoutes.LanParses | clients/core-ts/src/split.ts:110-120 | the canned LAN list is well formed, so it never throws |
| SplitRoutes.ExcludeFormsAgree | clients/core-ts/src/split.ts:717-730 | the complement form and the bypass form send the same addresses into the tunnel, and throw on the same policies |
| SplitRoutes.OffIsNoop | clients/core-ts/src/split.ts:684-687 | only a policy that is off without LAN bypass leaves the tunnel alone |
| SplitRoutes.IncludeMeaning | clients/core-ts/src/split.ts:702-715 | in include mode the tunnel takes exactly the included addresses, less the LAN when bypassed |
| SplitRoutes.RoutesDependOnAddresses | clients/core-ts/src/split.ts:676-683 | the route lists depend only on the set of addresses the surviving rules cover |
| CidrGrammar.ReadIff | clients/core-ts/src/split.ts:204-233 | a text is read if and only if, white space around aside, it is an address by the grammar, bare or followed by a slash and one to three digits of at most its bits |
| CidrGrammar.ReadAsMeant | clients/core-ts/src/split.ts:204-233 | it is then the block of all addresses that share the prefix's bits with that address, a bare address that one alone |
| CidrGrammar.BareAddress | clients/core-ts/src/split.ts:213-223 | every address's own text means that one address |
| CidrGrammar.AddressAndLength | clients/core-ts/src/split.ts:213-232 | and with a length behind it that prefix, host bits or not |
| CidrGrammar.SurvivesIff | clients/core-ts/src/split.ts:689-694 | a rule's value survives if and only if an enabled CIDR rule has it and it covers no endpoint's address |
| CidrGrammar.EndpointsStayOut | clients/core-ts/src/split.ts:624-641 | so no endpoint is ever among the addresses the surviving rules route |
| Punycode.AdaptBias | clients/core-ts/src/split.ts:430-439 | the bias adaptation, 32-bit shift included |
| Punycode.ShiftHalvesIff | clients/core-ts/src/split.ts:431 | the shift halves a delta if and only if it is below 2^31 |
| Punycode.AdaptsAsRfc | clients/core-ts/src/split.ts:430-439 | below 2^31, and always the first time, the bias is that of section 6.1 of RFC 3492 |
| Punycode.RfcRoundTrip | clients/core-ts/src/split.ts:422-485 | the encoder with exact shifts, that of section 6.3 of RFC 3492, writes for every label a text that section 6.2 decodes to it |
| Punycode.DeltasUnique | clients/core-ts/src/split.ts:447-480 | a label's literal and insertions are determined by it and determine it |
| Punycode.DecodesIff | clients/core-ts/src/split.ts:431 | the source's text of a label decodes to it if and only if every delta of the label that the 32-bit shift wraps, the first and the last aside, gives the next delta the digits of the right bias |
| Punycode.SafeDecodes | clients/core-ts/src/split.ts:431 | it does if no delta but the first and the last reaches 2^31 |
| Punycode.ShortLabels | clients/core-ts/src/split.ts:422-485 | for every label of up to 1,927 code points the text is that of the RFC |
| Punycode.LongLabelMisread | clients/core-ts/src/split.ts:431 | a label of 1,929 code points whose text no longer decodes |
| Punycode.IntegerRoundTrip | clients/core-ts/src/split.ts:466-475 | the decoder reads back every variable-length integer the encoder writes, under the same bias |
| Punycode.PutInteger | clients/core-ts/src/split.ts:466-475 | the digit loop writes the specified integer |
| Punycode.Basics | clients/core-ts/src/split.ts:445-446 | the code points below 128 are copied in order |
| Punycode.SmallestFrom | clients/core-ts/src/split.ts:453-458 | the next code point to insert |
| Punycode.InStepInsert | clients/core-ts/src/split.ts:465-478 | whatever came before, the delta at hand makes the decoder insert exactly the code point at hand exactly where it stands |
| Punycode.PutAll | clients/core-ts/src/split.ts:461-480 | one scan for a code point leaves the text that of the deltas put out, and the decoder of those deltas in step with the label |
| Punycode.PunycodeEncode | clients/core-ts/src/split.ts:422-485 | the loops put out the specified text, which decodes to the label if and only if its wrapped deltas are harmless, and then is the RFC's; so for every label and every output of up to 1,927; ASCII, no shorter than the label |
| EnrollLimit.Limiter.AllowEnroll | gateway/internal/api/api.go:654-682 | accepts if and only if a token is there; the new table either way |
| EnrollLimit.Limiter.GcOnce | gateway/internal/api/api.go:583-592 | removes exactly the full buckets |
| EnrollLimit.RateLimited | gateway/internal/api/api.go:529-537 | in any trace and any span of T seconds an address is accepted at most 8 + T/2 times |
| EnrollLimit.AllowedIff | gateway/internal/api/api.go:654-682 | a call is accepted if and only if, counted from each accepted call of its address, it is within 8 and one per two seconds since |
| EnrollLimit.WaitingHelps | gateway/internal/api/api.go:654-664 | an address that has not called for two seconds is accepted, whatever it did before |
| EnrollLimit.DroppingIsInvisible | gateway/internal/api/api.go:553-556 | a trace less any sweeps and any rejected calls leaves a table that answers alike ever after |
| EnrollLimit.SameAnswers | gateway/internal/api/api.go:664-665 | so no other call's answer changes |
| PeerTables.Device.AddPeer | gateway/internal/wg/device.go:238-267 | all three maps after an add, or unchanged on a refusal |
| PeerTables.Device.RemovePeer | gateway/internal/wg/device.go:270-291 | all three maps after a removal, or unchanged on a refusal |
| PeerTables.Device.RestorePeers | gateway/internal/wg/device.go:328-352 | the records taken in order, refused ones skipped, and their number |
| PeerTables.RestoredAll | gateway/internal/wg/device.go:328-352 | every cached record taken is held at its address with its last handshake |
| PeerTables.RestoreIsInverseIff | gateway/internal/wg/peercache.go:115-132 | a restore gives inverse address maps if and only if the addresses taken are distinct |
| PeerTables.RepeatedAddress | gateway/internal/wg/peercache.go:115-132 | two cached records of one address leave the maps not inverse |
| PeerTables.RemoveUndoesAdd | gateway/internal/wg/device.go:241-291 | removing a peer just added leaves no trace |
| Enrollment.Server.Assign | gateway/internal/api/api.go:349-382 | the 65,534-step walk: the peer's own address, or the first free usable one, and where the next walk starts |
| Enrollment.WalkFailsIff | gateway/internal/api/api.go:365-381 | the allocator fails if and only if every usable address is held, wherever the walk starts |
| Enrollment.WalkIsFirst | gateway/internal/api/api.go:356-381 | the address found is the first usable one nobody holds from the start of the walk on, and the next walk starts right after it |
| Enrollment.PoolSize | gateway/internal/api/api.go:356-375 | there are exactly 65,023 usable addresses, so failing takes that many peers |
| Enrollment.Server.MirrorPeer | gateway/internal/api/api.go:313-331 | the peer added to each mirror it reaches up to the first refusal |
| Enrollment.Server.RollBack | gateway/internal/api/api.go:318-327 | the peer taken off exactly the mirrors it was added to |
| Enrollment.Server.HandleEnroll | gateway/internal/api/api.go:274-331 | the whole new state and answer of the registration section |
| Enrollment.Server.SyncPremiumPeers | gateway/internal/api/api.go:508-524 | membership of the premium-only devices after a sync |
| EnrollmentRuns.AddressGiven | gateway/internal/api/api.go:349-382 | a new peer gets an unheld usable address, never 10.8.0.1; an enrolled one its own |
| EnrollmentRuns.RefusedIff | gateway/internal/api/api.go:274-294 | within the caps and with devices that answer, a key is turned away if and only if it is new and all addresses are held |
| EnrollmentRuns.EnrollAnswers | gateway/internal/api/api.go:274-331 | which reply every enrollment gets: the caps, for new keys, then the pool, then the main device and the mirrors reached |
| EnrollmentRuns.FailedEnrollLeavesNoTrace | gateway/internal/api/api.go:303-327 | a new peer a device refuses leaves every device exactly as it was |
| EnrollmentRuns.EnrolledEverywhere | gateway/internal/api/api.go:299-302 | a successful enrollment has the key at its address on the main device and every mirror it reaches |
| EnrollmentRuns.EnrolledLaw | gateway/internal/api/api.go:299-331 | a successful enrollment puts the key at its address on the main device and every mirror reached, and changes nothing else |
| EnrollmentRuns.SyncDecides | gateway/internal/api/api.go:496-507 | after an undisturbed sync an enrolled key is on a premium-only device if and only if it is entitled |
| EnrollmentRuns.SyncLaw | gateway/internal/api/api.go:508-524 | a tier sync touches only that key on premium-only devices that answer |
| EnrollmentRuns.EvictKeeps | gateway/cmd/gateway/main.go:410-421 | an eviction keeps the invariant |
| EnrollmentRuns.EvictLaw | gateway/cmd/gateway/main.go:410-421 | an evicted peer is on no device, every other where it was |
| EnrollmentRuns.RunKeeps | gateway/internal/api/api.go:264-382 | over every run of enrollments, refusals, syncs and evictions the main maps stay mutually inverse and each mirror holds part of the main table |
| EnrollmentRuns.NoSharedAddress | gateway/internal/wg/device.go:238-240 | no two peers share an address, and a key has the same address on every device |

## Left out

- Settlement.ConfirmedIsPaid: the days are those of the schedule the bridge sized by; a gateway running another schedule may judge the amount otherwise.
- Paging.InOrder: the simple sufficient condition; `Paging.InOrderIff` has the exact one.
- SettlementOwners.TwoPaymentsOneTransaction: for a fee that is not negative.
- Paging.NothingMissed: the front of the list may change but not get shorter while paging goes on.
- EnrollLimit.RateLimited: the bucket map only; the proof-of-work nonce generations of the same sweep are not modelled.
- Chain reorganisations: a transaction's height is fixed and a confirmed settlement is final.
- Floating point: amounts, prices and balances are exact; prices and amounts large enough to lose precision in a double, and block heights beyond 2^53, are not modelled.
- Network, file and database I/O, JSON, atomic renames, SQLite: tables are maps with their unique keys; a failed read is a parameter.
- Cryptography and store verification: hashes, signatures, StoreKit decoding, Play and OIDC calls; decoded payloads are inputs, tokens already lower-case.
- Schedule parsing and printing, quotes, change callbacks, save throttling and logging of the entitlement engine.
- The Stripe rail, vouchers and the queue's other users: they appear only as queue work that loses no event key.
- Apps and domains of a compiled split policy and domain normalisation around the Punycode encoder.
- Alerts, status pages, lookup lists, retries of the worker loop itself, and lock-level races between enrollment, sync and eviction.
- Handshake stamps, idle thresholds and the persistence of the peer cache; eviction is an arbitrary peer's removal.
