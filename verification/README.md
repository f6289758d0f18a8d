# Wallet daemon: a verified model

The daemon signs transactions and populates managed wallets for a platform that lists pending work page by
page. This project models its working parts in Dafny and proves what they promise.

| part | modules | source |
|---|---|---|
| Fuel-tank rewriter | `Division`, `Codec`, `Scale`, `Measure`, `FuelTank`, `FuelTankProperties`, `SignatureTypes`, `Acceptance`, `DeepSignature` | `src/transaction/fuel_tank.rs` |
| Transaction consumer | `TransactionHandler`, `NonceProperties`, `BatchProperties` | `src/transaction.rs` |
| Producer, channel, consumer and platform, interleaved | `Pipeline`, `PipelinedScan` | `src/transaction.rs` |
| Transaction producer | `Retry`, `Plays`, `TransactionScan`, `TransactionScanProperties`, `TransactionPacing`, `TransactionTrigger`, `PageRows`, `PageChain`, `TransactionStarvation` | `src/transaction.rs`, `src/retry.rs` |
| Triggers and waits | `WorkTrigger`, `WakeUps` | `src/work_trigger.rs` |
| Fallback poll | `Poller` | `src/work_trigger.rs` |
| Managed-wallet worker | `Plays`, `PageRows`, `PageChain`, `WalletScan`, `WalletScanProperties`, `WalletPacing`, `WalletTrigger` | `src/wallet.rs` |
| Pusher connection | `Websocket`, `WebsocketProperties` | `src/websocket.rs` |
| Identity | `WalletLoader`, `WalletIdentity`, `SeedText` | `src/wallet_loader.rs`, `src/crypto.rs` |
| Eras | `Era`, `Division` | `src/substrate_client.rs` |

Code that changes state is a class or a method with the source's loop (`SignDispatch`, `FindArguments`, `Visit`,
`TransactionHandler`, `StartPolling` of both workers, the trigger's methods, `Tick`, `ListenTo`, `Run`,
`LoadSeed`), proved equal to a specification function; the theorems are about those functions and about
interleavings of steps.

## How the world is modelled

- Endless loops run over a finite, arbitrary list of rounds. A round says what is notified at each point, what the
  lookup answers, what the consumer acknowledges, and which jitter is drawn. A consumer that is gone acknowledges
  nothing, and the loop stops.
- Every network call answers arbitrarily. A submission is accepted when the mutation call returns `Ok`; the
  mutation's own Boolean is ignored, as `src/platform_client.rs:71-84` ignores it.
- `Pipeline` assumes that a lookup lists distinct pending uuids and that accepted rows stop being pending;
  `PipelinedScan.LogIsRun` assumes this of each lookup of the loop, and that each outcome is the consumer's.
  `NonceProperties` assumes that `GetAccountNonce` never answers above the signer's next unaccepted nonce, and
  answers exactly that when the signer has no cached slot.
- Cryptography is abstract: signing is any function of the message; `WalletLoader.Crypto` only promises that
  decrypting with the password used to encrypt gives the plaintext back, with the password appended when the file
  was imported.
- The byte formats follow section A.2.2 (SCALE Codec) of the Polkadot Protocol Specification.
- Times are numbers of milliseconds.

## Where the code and its comments differ

The model follows the code.

- `src/transaction.rs:604-609` says the failure count is never reset while a scan leaves work behind, so that a single
  row drives the delay to its cap. For every scan, `TransactionPacing.EscalationExact` proves that it counts one failure
  more than when it began if and only if it ends with a wait and either none were counted or its first page had nothing
  accepted. It ends with a wait if and only if its last lookup failed or a page of it was noticed to leave work behind;
  otherwise the count is cleared. `LeftRowEscalatesExact` says what this means for a row that is left. A row that does
  not convert is forgotten, the count with it, when it is alone on the last page (`UnconvertibleRowIsForgotten`) or
  beside rows that are accepted (`UnconvertibleRowBesideOthers`). Scans that do wait start counting over when their
  first page has something accepted (`PartialScansNeverEscalate`, `AcceptedThenFailedStartsOver`).
- `src/wallet.rs:299-304` says the same of the wallet worker, of a row it can never convert. `WalletPacing` has the same
  theorems: such a row clears the count when it is alone on the only page, or beside wallets that are accepted, and a
  scan whose first page is accepted counts its waits from none (`WalletEscalationExact`, `LeftRowEscalatesExact`,
  `UnconvertibleRowIsForgotten`, `UnconvertibleRowBesideOthers`, `LastPageFailuresNeverEscalate`).
- A transaction page without any row ends the scan even when it names a next cursor, and so does a failed submission
  (`TransactionStarvation.NoPageIsStarved`); a wallet page without any row is drained like one without convertible
  rows.
- Signing an already signed call gives the same bytes only while the new signature stays within the nesting bound:
  `FuelTankProperties.SigningTwice`, with concrete calls in `DeepSignature`.
- A `wallet.seed` that is itself a directory is never read, and each start draws a new identity:
  `WalletIdentity.StableExactlyWhenNotADirectory`, `IdentityCanBeLost`.

## Model

| member | source | states |
|---|---|---|
| Codec.FromToLE | src/transaction/fuel_tank.rs:93-96 | writing a number little-endian and reading it gives it back when it fits |
| Codec.ToFromLE | src/transaction/fuel_tank.rs:93-96 | reading little-endian bytes and writing them gives them back |
| Codec.CompactSound | src/transaction/fuel_tank.rs:111-114 | whatever a compact decodes to re-encodes to the bytes it took, in every mode |
| Codec.CompactComplete | src/transaction/fuel_tank.rs:85-88 | every encoding of a compact decodes to its number whatever follows |
| Codec.ByteAt | src/transaction/fuel_tank.rs:93-96 | byte i of a little-endian number is its i-th digit to base 256 |
| Codec.CompactForms | src/transaction/fuel_tank.rs:85-88 | a compact integer takes one, two or four bytes, or a count and as few bytes as hold it but at least four |
| Scale.DecodeSound | src/transaction/fuel_tank.rs:111-114 | whatever decodes is a value of the type, within the depth allowed, and re-encodes to the bytes it took |
| Scale.DecodeComplete | src/transaction/fuel_tank.rs:111-114 | every encoding of a value decodes to that value, whatever bytes follow |
| Scale.BeginsUnique | src/transaction/fuel_tank.rs:111-114 | bytes start with the encoding of at most one value of a type |
| Scale.DecodeAsTypeExact | src/transaction/fuel_tank.rs:111-114 | the unbounded decoder finds a value exactly when the bytes start with its encoding; its depth is bounded by registry and input |
| Scale.SequenceTyped | src/transaction/fuel_tank.rs:111-114 | a sequence is typed by its items alone, if there are fewer than 2^64 |
| Measure.Visit | src/transaction/fuel_tank.rs:222-236 | the walk returns what the bounded measure returns, never visits deeper than one level past 128, and reports too deep if and only if it did |
| Measure.VisitItems | src/transaction/fuel_tank.rs:200-215 | the loop over a container's items measures them one after the other with the same bound, and reports too deep likewise |
| Measure.MeasureExact | src/transaction/fuel_tank.rs:158-263 | the walk measures n bytes exactly when a value of the type no deeper than 128 takes exactly n bytes |
| Measure.MeasureAgreesWithDecoder | src/transaction/fuel_tank.rs:158-263 | the walk succeeds with n bytes exactly when the decoder consumes n bytes and no value lies deeper than 128 |
| Measure.MeasureIsLocal | src/transaction/fuel_tank.rs:158-263 | a successful measure is unchanged by any bytes appended after it |
| Measure.TooDeepIsReported | src/transaction/fuel_tank.rs:222-236 | bytes that hold a value nested past the bound are refused as too deep, not as malformed |
| Measure.BatchLimit | src/transaction/fuel_tank.rs:592-625 | a remark with a non-empty argument in k single-call batches is measured exactly when 3k+3 is at most 128, else too deep |
| FuelTank.FindArguments | src/transaction/fuel_tank.rs:48-66 | the loop over the layout returns the scan: the first failing argument's error, trailing bytes, or the two ranges |
| FuelTank.ScanExact | src/transaction/fuel_tank.rs:48-69 | a scan fails exactly as splitting the bytes fails, and otherwise finds the ranges of the last arguments named call and settings |
| FuelTank.RangeIsSlice | src/transaction/fuel_tank.rs:98-101 | replacing a range in the payload is replacing that argument's slice and nothing else |
| FuelTank.SignDispatch | src/transaction/fuel_tank.rs:29-102 | returns the specified result; an error means the key was never used, success that it signed the call, caller and expiry once |
| FuelTank.SignatureShape | src/transaction/fuel_tank.rs:76-91 | whether the settings can carry a signature, and how deep, does not depend on the signature |
| FuelTankProperties.SplitSound | src/transaction/fuel_tank.rs:48-66 | arguments that split are the encodings of shallow values of the layout's types, together all the bytes |
| FuelTankProperties.SplitComplete | src/transaction/fuel_tank.rs:48-66 | every tuple of shallow values of the layout's types splits into their encodings |
| FuelTankProperties.SplitTooDeep | src/transaction/fuel_tank.rs:53-57 | the first argument nested past the bound is the one refused |
| SignatureTypes.SignatureValueExact | src/transaction/fuel_tank.rs:76-91 | a type can be given the signature if and only if it is an enum whose `Some` holds, inside unnamed wrappers however many, a struct of byte and number types called signature and expiry block |
| Acceptance.AcceptedExact | src/transaction/fuel_tank.rs:29-146 | for all bytes: the call is accepted if and only if it is `FuelTanks.dispatch` or `dispatch_and_touch`, its bytes are shallow values of its arguments' types, it has an inner call and settings, and their type holds a signature, in the struct sent or, for `None`, in one that zero bytes default |
| Acceptance.RefusedCalls | src/transaction/fuel_tank.rs:36-46 | too few bytes, an unknown call and a call that is no dispatch each give their own error |
| Acceptance.RefusedArguments | src/transaction/fuel_tank.rs:48-66 | a dispatch whose bytes are not its arguments is refused for the first argument that is not there, as too deep if it is there but deeper than 128, or for what is left over |
| Acceptance.RefusedSettings | src/transaction/fuel_tank.rs:66-146 | a dispatch with its arguments is refused for lack of an inner call, of settings, of readable settings, of a known default, of a signature field or of a type that holds one, each if and only if that is so |
| FuelTankProperties.SettingsResolved | src/transaction/fuel_tank.rs:106-146 | resolved settings are those sent, or for `None` settings whose other fields are all false or `None` |
| FuelTankProperties.SignedSettingsReads | src/transaction/fuel_tank.rs:76-91 | settings with the new signature are values of their type whose signature field reads back as it |
| FuelTankProperties.SignedCallReadsBack | src/transaction/fuel_tank.rs:29-102 | re-decoding an accepted call's output gives the same arguments but settings, nothing left over, and settings equal to the original or the default but for the signature of call, caller and expiry |
| FuelTankProperties.SigningTwice | src/transaction/fuel_tank.rs:490-510 | signing a signed call again gives the same bytes if and only if the new signature reaches no deeper than 128, else a too-deep error |
| FuelTankProperties.NoSettingsMeansZeroes | src/transaction/fuel_tank.rs:106-146 | a call with `None` settings is signed to the same bytes as with explicit false and `None` settings |
| DeepSignature.DeepSignatureIsNotSignedTwice | src/transaction/fuel_tank.rs:53-57 | a concrete call with its signature in n tuples is always accepted; signing it again works exactly up to 123 tuples |
| TransactionHandler.TransactionProcessor.PrefetchChains | src/transaction.rs:766-812 | each chain of the batch is fetched exactly once and ends up ready, with its block, or failed; exactly the chains that are behind are updated, once |
| TransactionHandler.TransactionProcessor.PrefetchNonces | src/transaction.rs:829-882 | each signer on a ready chain is fetched exactly once; slots are seeded, rebased forward only, or failed |
| TransactionHandler.TransactionProcessor.SignAll | src/transaction.rs:893-1058 | signs in order at each signer's slot; the two branches for missing prefetches cannot be reached |
| TransactionHandler.TransactionProcessor.TransactionHandler | src/transaction.rs:751-1107 | outcome, cache and submission are those specified, with no fetch repeated |
| TransactionHandler.TransactionProcessor.EvictNonceKeys | src/transaction.rs:1185-1189 | a slot survives if and only if its key is not one a failed submission advanced, and with the nonce it had |
| TransactionHandler.TransactionProcessor.EvictIdleChains | src/transaction.rs:1170-1183 | a slot survives, for every signer, if and only if its chain is not idle, and with the nonce it had |
| TransactionHandler.TransactionProcessor.LaunchJobScheduler | src/transaction.rs:1110-1144 | ticks are handled one at a time, each acknowledged with its outcome |
| TransactionHandler.SeededHasSlots | src/transaction.rs:829-882 | after prefetching every eligible request has a slot not below the platform's nonce, and no slot is lost |
| BatchProperties.SeededExact | src/transaction.rs:814-882 | exactly the slots the batch needs are refreshed, each to the larger of the cached nonce and the platform's; every other slot is unchanged |
| BatchProperties.SignedExact | src/transaction.rs:893-1058 | each row is signed at its signer's slot plus the rows signed for that signer before it |
| BatchProperties.TickNoncesExact | src/transaction.rs:829-1144 | for every cache and tick: the nonce of each row and the cache afterwards, from the cache before, the idle chains and the platform's answers |
| BatchProperties.RunExact | src/transaction.rs:1110-1144 | each tick of a run is handled with the cache the ticks before it left and acknowledged with its own outcome |
| NonceProperties.EligibleExact | src/transaction.rs:766-812 | a row can be signed if and only if its block and nonce were fetched and its client is at the block's runtime or was updated |
| NonceProperties.TickKeepsNonces | src/transaction.rs:829-1107 | whatever fails in a tick, cached slots stay the signers' next nonces and accepted nonces stay consecutive |
| NonceProperties.AcceptedNoncesAreConsecutive | src/transaction.rs:829-1107 | over every run of ticks each signer's accepted nonces are every number from its first to its next, each once and in order |
| NonceProperties.BatchOutcomeExact | src/transaction.rs:1060-1107 | the rows submitted are the signable ones in order, and the four outcomes partition by count and submission result |
| Pipeline.OneTickAtATime | src/transaction.rs:650-673 | in every interleaving at most one tick is queued, held or unacknowledged, and none when a lookup is issued |
| Pipeline.SendNeverBlocks | src/transaction.rs:315-333 | a tick to send always finds room in the channel of capacity one |
| Pipeline.NoLookupAfterPanic | src/transaction.rs:650-673 | once the consumer has panicked no lookup is ever issued again |
| Pipeline.NoRowAcceptedTwice | src/transaction.rs:320-326 | in every interleaving no row is accepted twice |
| Pipeline.NoncesStayConsecutive | src/transaction.rs:829-1107 | in every interleaving accepted nonces stay consecutive for each signer |
| PipelinedScan.TurnSendsOnce | src/transaction.rs:396-572 | a turn of the loop hands over at most one tick, and stops if and only if it has one to send that is never acknowledged |
| PipelinedScan.ProducerGoesInTurns | src/transaction.rs:650-673 | in every interleaving the producer does a lookup and then finds nothing or sends one tick and sees one acknowledgement, over and over |
| PipelinedScan.LogIsRun | src/transaction.rs:347-673 | what the loop logs against any consistent world is a run of the interleaved system, turn by turn |
| PipelinedScan.LoopNeverAcceptsTwice | src/transaction.rs:320-326 | the loop, the consumer and the platform together never have a row accepted twice |
| Retry.ExponentialDelayExact | src/retry.rs:34-41 | the delay is min(60, 2^failures) seconds for every 32-bit count |
| Retry.JitterBounds | src/retry.rs:44-50 | the jittered delay is the percentage drawn of that, up to a minute, so within 80-120% of it |
| TransactionScan.ScanRetryState.ResetFailureCountAfterProgress | src/transaction.rs:124-128 | progress clears the failures only while no retry is owed |
| TransactionScan.ScanRetryState.Take | src/transaction.rs:130-132 | reports and clears the owed retry |
| TransactionScan.CompleteChainScan | src/transaction.rs:143-153 | idle chains are those of the previous scan and not of this one, which becomes the previous |
| TransactionScan.TransactionJob.FinishScan | src/transaction.rs:574-598 | a scan that owes a retry waits and counts one failure; any other starts over at once only for new work |
| TransactionScan.TransactionJob.HandOver | src/transaction.rs:440-516 | a page with rows is handed over once and its outcome decides as specified |
| TransactionScan.TransactionJob.EndEmpty | src/transaction.rs:420-446 | a scan that found nothing reports idle chains and ends as specified |
| TransactionScan.TransactionJob.StartPolling | src/transaction.rs:347-572 | the loop over any rounds does exactly what the step function says, for as long as the consumer lives |
| Plays.TurnsArePlay | src/transaction.rs:347-572 | every run of either worker's loop is a play, so the theorems about plays are about the loops |
| Plays.NoWorkIsForgotten | src/work_trigger.rs:224-251 | in every play of a worker whose turns record what they do to the trigger, each event or force was followed by a fresh lookup or is still armed, with the last event's deadline |
| TransactionScanProperties.LookupsArePaced | src/transaction.rs:379-568 | never more than 22 lookups in a row without a wait or an accepted submission, nor more than 20 pages drained; a fresh lookup owes nothing |
| TransactionScanProperties.IdleChainsExact | src/transaction.rs:391-536 | the chains gathered are the scan's; idle chains are exactly the previous ended scan's minus this one's; no tick evicts its own chains; dropped scans change nothing |
| TransactionScanProperties.ParksOnlyWhenAllAccepted | src/transaction.rs:379-385 | the worker parks only after a scan that ended without a wait and with all it delivered accepted |
| TransactionScanProperties.EveryWaitIsPaced | src/transaction.rs:474-598 | every wait, of whatever cause, counts exactly one failure more than the turn had counted and lasts 80-120% of min(60, 2^failures) seconds, at most a minute |
| TransactionScanProperties.RetryIsPaced | src/transaction.rs:474-598 | from the first page that owes a retry, even the last, the failures stay, then rise by exactly one with a delay in bounds |
| TransactionScanProperties.TurnTrigger | src/transaction.rs:387-394 | a turn does to the trigger what it records and begins a fresh lookup exactly when it looks up without a cursor |
| TransactionScanProperties.NoWorkIsForgotten | src/transaction.rs:379-572 | at every turn of every play each event or force was followed by a fresh lookup or is still armed, with the last event's deadline |
| PageRows.ConvertibleExact | src/transaction.rs:707-718 | the requests of a page are its convertible rows, each once and in order |
| TransactionTrigger.OpsExact | src/transaction.rs:387-572 | what a turn does to the trigger, in order: what comes before the lookup, its beginning, what comes during it and a tick, the release, what comes during a wait |
| TransactionTrigger.StartsOverExact | src/transaction.rs:420-598 | a scan that ends without a wait starts over at once if and only if it read rows or several pages and something came since its fresh lookup began |
| TransactionPacing.ScanEndExact | src/transaction.rs:420-598 | in every play a scan ends or is dropped with a wait if and only if its lookup failed, one of its pages owes a retry or its last delivery was not accepted |
| TransactionPacing.EscalationExact | src/transaction.rs:604-609 | for every scan, from its rounds alone: whether it ends with a wait and the count it ends with; it counts exactly one failure more than when it began if and only if it ends with a wait and none were counted or its first page had nothing accepted |
| TransactionPacing.LeftRowEscalatesExact | src/transaction.rs:604-609 | the same of every scan that leaves a given row behind; if it ends without a wait the count is zero and the row is an unconvertible one, on an accepted page or on the last |
| TransactionPacing.UnconvertibleRowIsForgotten | src/transaction.rs:604-609 | a row that never converts, alone on the only page, clears any count and the worker parks |
| TransactionPacing.UnconvertibleRowBesideOthers | src/transaction.rs:604-609 | a row that never converts, beside an accepted one, clears any count |
| TransactionPacing.PartialScansNeverEscalate | src/transaction.rs:604-609 | a partly accepted page in a scan of its own is always waited for as a first failure |
| TransactionPacing.AcceptedThenFailedStartsOver | src/transaction.rs:604-609 | a scan with an accepted first page and a failing last page clears the count, then waits as after a first failure |
| TransactionPacing.TwentyTwoInARow | src/transaction.rs:379-568 | a play that does issue 22 lookups in a row |
| PageChain.ReadingIsExact | src/retry.rs:20-31 | a chain of pages is read to its end by each page's cursor if and only if before the last page none stops the scan and 21 unproductive pages never come in a row; then all rows are handed over once, in order |
| TransactionStarvation.NoPageIsStarved | src/transaction.rs:396-517 | in any play, a chain of pages answered without lookup errors is read to its end if and only if before the last page there is no page without rows, no failed submission, no unproductive page naming its own cursor and no run of 21 unproductive pages; then every convertible row is handed over once, in order |
| WorkTrigger.WorkTrigger.RecordEvent | src/work_trigger.rs:140-151 | a notification counts, moves the debounce deadline, and stores a permit |
| WorkTrigger.WorkTrigger.ForceLookup | src/work_trigger.rs:154-157 | a force sets the flag and stores a permit |
| WorkTrigger.WorkTrigger.BeginFreshLookup | src/work_trigger.rs:224-231 | a fresh lookup captures the generation and clears what it covers |
| WorkTrigger.WorkTrigger.FinishBatchLookup | src/work_trigger.rs:234-246 | reports new work and releases the generation when the scan is complete |
| WorkTrigger.StateIsFaithful | src/work_trigger.rs:92-106 | after any operations the state is the history's count, flag, deadline and generations, held exactly while a lookup is, modulo the generations' wrap |
| WorkTrigger.DeferredExact | src/work_trigger.rs:234-246 | finishing a batch reports new work if and only if something came since the last fresh lookup began, even after the wrap |
| WorkTrigger.NoNoticeIsLost | src/work_trigger.rs:140-251 | each event or force is followed by a fresh lookup begun after it, or is armed with the last event's deadline |
| WorkTrigger.ReadyExact | src/work_trigger.rs:160-196 | the idle wait is ready if and only if forced, 25 events, or half a second after the last event |
| WakeUps.SleepersAreWoken | src/work_trigger.rs:160-219 | in every interleaving a sleeping worker is unarmed, has a permit, or wakes by its own deadline in time |
| WakeUps.IdleWaitReturnsForWork | src/work_trigger.rs:160-196 | the idle wait returns if and only if there is a force, 25 events, or a last event half a second ago |
| WakeUps.RetryWaitReturnsForNews | src/work_trigger.rs:199-219 | the retry wait returns if and only if an event, or a force when none was outstanding, came after its call, but for a whole turn of the generations |
| Poller.PusherStatus.SetConnected | src/work_trigger.rs:22-31 | only a change of status is announced |
| Poller.PusherAwarePoller.Tick | src/work_trigger.rs:60-80 | a wait for a tick does exactly what the step function says, through any changes and up to the expiry |
| Poller.DeadlineExact | src/work_trigger.rs:49-89 | the deadline is the time it was last set plus the interval for the status read then, and an unseen change is known as such |
| Poller.ConstantStatusTicks | src/work_trigger.rs:49-89 | with a constant status a tick is due exactly one interval after the last tick or observed change, however often the status is repeated or the wait given up |
| Poller.UnseenChangeRearms | src/work_trigger.rs:60-80 | an unseen change re-arms the deadline at the next wait, or at once in a running one |
| WalletScan.DeriveWalletJob.ApplyStep | src/wallet.rs:264-293 | a step either goes on, clearing the failures if told to, or waits and counts one more |
| WalletScan.DeriveWalletJob.StartPolling | src/wallet.rs:167-260 | the loop over any rounds does exactly what the step function says |
| WalletScanProperties.WalletLookupsArePaced | src/wallet.rs:167-260 | never more than 22 lookups in a row without a wait or an accepted submission, nor more than 20 pages drained |
| WalletScanProperties.ParksOnlyWhenNothingIsOwed | src/wallet.rs:177-183 | the worker parks only after a scan every page of which was accepted |
| WalletScanProperties.WalletBackoffExact | src/wallet.rs:62-125 | a wait adds one failure, a page of a scan that owes a restart leaves the count, any other page clears it; the delay is in bounds |
| WalletScanProperties.RestartIsPaced | src/wallet.rs:62-100 | from the first page left behind the failures never fall, and the scan ends with a wait that counts one more |
| WalletPacing.WalletScanEndExact | src/wallet.rs:62-125 | in every play a scan ends with a wait if and only if its lookup failed or one of its pages left wallets behind |
| WalletPacing.WalletEscalationExact | src/wallet.rs:299-304 | for every scan, from its rounds alone: whether it ends with a wait, how many waits it has and the count it ends with; it adds its waits to the failures it began with if and only if it ends with a wait and none were counted or its first page was not accepted (or the count saturates) |
| WalletPacing.LeftRowEscalatesExact | src/wallet.rs:299-304 | the same of every scan that leaves a given row behind; if it ends without a wait the count is zero and the row is an unconvertible one, on an accepted page or on the last |
| WalletPacing.UnconvertibleRowIsForgotten | src/wallet.rs:299-304 | a row that never converts, alone on the only page, clears any count and the worker parks |
| WalletPacing.UnconvertibleRowBesideOthers | src/wallet.rs:299-304 | a row that never converts, beside an accepted one, clears any count |
| WalletPacing.LastPageFailuresNeverEscalate | src/wallet.rs:299-304 | a scan with an accepted first page and a failing last page always waits as after a first failure |
| WalletScanProperties.TurnTrigger | src/wallet.rs:185-188 | a turn does to the trigger what it records and begins a fresh lookup exactly when it looks up without a cursor |
| WalletScanProperties.WalletTurnsRecordOps | src/wallet.rs:177-260 | in every play the trigger is what the recorded operations make it |
| WalletScanProperties.NoWalletWorkIsForgotten | src/wallet.rs:167-260 | at every turn of every play each event or force was followed by a fresh lookup or is still armed, with the last event's deadline |
| WalletTrigger.OpsExact | src/wallet.rs:177-260 | what a turn does to the trigger, in order |
| WalletTrigger.StartsOverExact | src/wallet.rs:62-125 | a scan that ends without a wait starts over at once if and only if it read wallets or several pages and something came since its fresh lookup began |
| WalletScanProperties.NoWalletIsStarved | src/wallet.rs:167-260 | whatever each submission's outcome, a chain of pages answered without lookup errors is read to its end if and only if before the last page no unconvertible page names its own cursor and 21 unconvertible pages never come in a row; then every convertible row is handed over once, in order |
| Websocket.PusherConnection.ListenTo | src/websocket.rs:194-248 | the loop reacts to every input as specified, up to the first failure, and tells the triggers what it records |
| Websocket.PusherConnection.Run | src/websocket.rs:85-125 | over any attempts the connection does what is specified; the status is connected exactly while listening |
| WebsocketProperties.SilenceIsDetected | src/websocket.rs:183-248 | with timely timers at most one ping is outstanding, and silence fails the connection exactly an activity timeout and a pong timeout after the last message, within 630 seconds |
| WebsocketProperties.ListeningExact | src/websocket.rs:194-248 | a pong is sent if and only if a socket or Pusher ping for this channel came and the answer went through, a ping if and only if a timer fires with none awaited; the connection fails exactly on the inputs named |
| WebsocketProperties.ListenFailsExact | src/websocket.rs:194-248 | listening is over if and only if some input so far fails the connection |
| WebsocketProperties.SessionsTell | src/websocket.rs:85-125 | over every run of attempts each worker is told exactly to look up at each subscription and then its own events up to the failing input |
| WebsocketProperties.RoutingExact | src/websocket.rs:213-236 | each worker is told exactly of its own events on this channel or on none, in order |
| WebsocketProperties.SubscriptionsForceFirst | src/websocket.rs:85-125 | every new subscription forces both workers before any event is read, and every wait is spent announced as disconnected |
| WebsocketProperties.ReconnectPacing | src/websocket.rs:331-337 | the failures that pace reconnecting are the attempts since the last subscription of at least 30 seconds |
| WalletLoader.Loader.WriteMnemonic | src/wallet_loader.rs:148-182 | a new seed goes to the file the extension rule names, after making its directories, as specified |
| WalletLoader.Loader.GetKeys | src/wallet_loader.rs:122-146 | a file gives its key and nothing changes; anything else gets a new seed |
| WalletLoader.Loader.LoadSeed | src/wallet_loader.rs:49-120 | loading does step by step what is specified, with every step's file system recorded |
| WalletLoader.V1IsNotSeed | src/wallet_loader.rs:72-82 | the first-version file found is an entry of the required name, and never the new seed's own |
| WalletIdentity.IdentityIsStable | src/wallet_loader.rs:49-182 | loading again with the same password returns the same key and changes nothing, whatever is drawn and in whatever order entries are read |
| WalletIdentity.MigrationKeepsIdentity | src/wallet_loader.rs:100-119 | migration succeeds if and only if the old file gives its key through its mnemonic, returns that key, and at every step loading gives that key |
| WalletIdentity.StableExactlyWhenNotADirectory | src/wallet_loader.rs:69-72 | given two draws of different keys, reloading is stable if and only if the seed is not a directory |
| WalletIdentity.IdentityCanBeLost | src/wallet_loader.rs:122-146 | a file system on which two loads return different keys |
| SeedText.StrippedExact | src/wallet_loader.rs:34-47 | a first-version file holds exactly what is left of its content after trimming white space, quotes, line feeds and carriage returns, in that order |
| SeedText.StrippedIsPart | src/wallet_loader.rs:34-47 | what is left is a contiguous part, with only such characters outside it |
| SeedText.QuotedMnemonic | src/wallet_loader.rs:255-263 | a mnemonic in double quotes with white space around them is held without either |
| SeedText.HeldMnemonicLoads | src/wallet_loader.rs:122-146 | a file that no password decrypts gives the key of the mnemonic it holds with `///` and the password appended |
| SeedText.HeldMnemonicMigrates | src/wallet_loader.rs:100-119 | migration writes that mnemonic encrypted as imported, deletes the old file only then, gives that key and changes nothing else |
| SeedText.WrongPasswordChangesNothing | src/wallet_loader.rs:122-146 | the wrong password for a second-version seed returns no key and writes nothing |
| SeedText.FirstV1Exact | src/wallet_loader.rs:72-82 | the first-version file is the first entry of 72 characters that begins with 73723235, if there is one |
| SeedText.SeedFileExact | src/wallet_loader.rs:163-172 | which path a new seed is written to, by the path's name alone |
| SeedText.NewSeedExact | src/wallet_loader.rs:148-182 | a new seed is written if and only if its mnemonic, its directories and the overwriting rule allow; it then holds the mnemonic encrypted and no other file is touched |
| Era.PeriodExact | src/substrate_client.rs:500-504 | the period is the least power of two not below the mortality, between 4 and 65536 |
| Era.BirthExact | src/substrate_client.rs:506-513 | the birth block for every block and lag, in closed form |
| Era.BirthWithinPeriod | src/substrate_client.rs:506-513 | the runtime derives the rounded block if and only if less than a period has passed since it, else a later one |
| Era.TransactionAnchor | src/main.rs:22-23 | with mortality 64 the birth block is the signing block if and only if the lag is below 64 |
| Era.DummyAnchor | src/main.rs:22-23 | with mortality 14400 only if moreover the block is a multiple of four |

## Left out

- GraphQL and HTTP execution, headers, response decoding and the retries inside a call: each call is an arbitrary answer.
- sr25519, Argon2, AES-GCM, BIP-39, SS58 and building extrinsics: abstract functions, or a building step that may fail.
- `derive_signer` and `derive_junction`: a request carries its signer's account, a wallet its external id.
- Registry: strings, chars and bit sequences; a value is bools, integers, compacts, sequences, arrays, tuples, structs and enums, and signed integers are read as the unsigned ones of their width.
- FuelTank.SignDispatch: a settings type is filled only the ways the signature is built here; other conversions an encoder library would accept (positional structs, wrapped compacts) are refusals here.
- Scale.DecodeAsTypeExact: not stated for strings, chars and bit sequences; on a registry where a type contains itself without consuming input the library decoder would not return; here it finds no value.
- Measure.MeasureExact: not stated for strings, chars and bit sequences, whose ends the walk leaves to the decoding library.
- Measure.MeasureAgreesWithDecoder: not stated for strings, chars and bit sequences, likewise.
- FuelTank.FindArguments: the skipping of an undecodable value by the decoding library is not modelled; a measure error stops the walk.
- NonceProperties.AcceptedNoncesAreConsecutive: nonces are unbounded, so the 64-bit wrap is not modelled.
- `block_number + TX_MORTALITY` in 32 bits: expiry blocks are any 32-bit number, and the overflow at the end of the range is not modelled.
- TransactionStarvation.NoPageIsStarved: speaks of the rows that convert; what becomes of the others is in the two modules on pacing.
- Pipeline.NoRowAcceptedTwice: the consumer panics only while it holds a tick, and a submission whose acceptance was lost on the way back counts as failed.
- WakeUps.SleepersAreWoken: the two waits are state machines over lock-level steps, not methods, since they block; liveness of the scheduler is not stated.
- `wait_for_retry_or_trigger`: which of the three arms ends a delay is not modelled; what arrives during a delay is.
- Poller.PusherAwarePoller.Tick: reading the clock and the status is one step, and the status's sender outlives the poller.
- WebsocketProperties.SilenceIsDetected: sending a ping takes no time, and timers fire when due.
- The Pusher handshake, authentication, URL building, error redaction and the `.env` lookup.
- WalletLoader.Loader.LoadSeed: files hold text, names are ASCII, there are no links, directories are made as one step, writes are atomic, and what is printed is left out.
- `resolve_seed_path`, `load_wallet`'s printing, the importer, multitenant registration and logging.
- `base64_encode` (dead code) and UTF-16 decoding of `.env` files.
