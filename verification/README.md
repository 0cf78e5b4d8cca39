# Verified kernels of the trading runtime

This project models the sequential, state-keeping kernels of a trading runtime in Dafny and proves what they promise over whole runs. Each kernel is a pure step function over an explicit state, a run of that step over any list of events, and, where the program updates an object in place, a class whose methods are proved to take exactly that step. The theorems are then proved about the step and the run.

| files | what they model |
|---|---|
| `SessionRows.dfy`, `KeyedRows.dfy`, `SessionLog.dfy`, `OperatorSessionStore.dfy` | the operator session store: an append-only log, an insertion-ordered map trimmed after each write, stable sorting, replay |
| `Continuity.dfy`, `DataValidator.dfy` | gap detection, baseline resynchronisation, recovery counting and the two health answers |
| `Records.dfy`, `CandleAdmission.dfy`, `BookThrottle.dfy`, `MarketIngress.dfy` | per-symbol candle admission and order-book throttling |
| `SentimentAdmission.dfy` | the buffered sentiment admission |
| `ObservedPairs.dfy`, `SectorRotation.dfy`, `LiquidityVoid.dfy` | the observed (signal, vote) pairs, their producers, stale-clear and consumers |
| `SellAuthority.dfy`, `GuardrailRules.dfy` | the portfolio risk gate, sell classification and the pre-trade guardrail builder; and what each comes to, rule by rule, on the candidate as the strategy left it |
| `SleeveSelection.dfy`, `Dispatch.dfy` | candidates and winner of a dispatch; compile and submit stage by stage with an exception possible at every stage, their accounting, and the stall watchdog |
| `Calendar.dfy`, `SessionHours.dfy` | civil dates, fallback holidays, session state, next open, next close, remaining time |
| `Commander.dfy`, `Recalibration.dfy` | the attack switch at lock granularity, and the recalibration machine |
| `PaperLedger.dfy`, `InstrumentRounding.dfy`, `DeepSymbols.dfy` | the paper portfolio, tick and step rounding with order validation, deep-subscription allocation |
| `Text.dfy`, `Options.dfy` | string order, `strip`, case folding; optional values |

Collaborators whose code is outside these kernels (fusion, router, compiler, execution engine, guardrail evaluator, broker inventory, strategies, adapters, recalibrator, holidays library, price source) are inputs: functions of what they are passed, or free choices per event. An adapter is only assumed to stamp a vote with the timestamp it was given. Timestamps are integers, money and sizes exact reals, times of day Eastern wall-clock microseconds.

Some promises turn out to hold only under a condition. They are stated as equivalences, with a concrete failing input where that helps:

- Every run of the session store agrees with a replay, at every limit that keeps rows, exactly when no id carries surrounding blanks and no id is written under two sort keys with another id's key between or equal to them. A rewrite under an older key, and one that lifts an evicted row level with a kept one, are the two ways the last condition fails. At a negative limit every run agrees exactly when there are no more ids than the limit drops. The in-memory audit list agrees with a replay exactly when no empty event was written since opening.
- The next-open search always skips today and answers 8:30 for the extended session, which opens at 8:00. So its answer is the least opening after the query exactly for the regular session when today's opening is not still to come; the extended answer is always half an hour late. The documented "last weekday of the month" (n = 5) lands in the following month, so the fallback list has the last Monday of June for Memorial Day. At the closing instant the session still counts as open and the remaining time runs to a later day's close.
- Attack mode is on at or above target exactly when a race is live: an enable whose check preceded the update that reached the target set the mode after it, and nothing has disabled it since. The aggression contract still refuses to attack.
- Compilation cycles equal submitted plus rejected plus no-submit compiles exactly when no dispatch raises between counting its cycle and booking its outcome. The watchdog stays armed exactly when some dispatch raised after arming it and none armed it since.
- A buy is evaluated, as a buy, exactly when the protected baseline does not refuse it; a sell exactly when besides it has an action, which follows from the broker inventory where that is required; any other side always, under its own name.
- The LiquidityVoid lane admits each vote id at most once exactly when no id is offered on two symbols and none returns on its symbol after a different one; the adapter stamps a new random id on every vote, so in the program this holds.
- A resumed stream is accepted from its first packet past both baselines, plus a lost prefix of at most two; without ids, as the books come, at most its first packet is lost. One packet from the future moves the timestamp baseline, and every steady packet is refused until their times catch up with it.
- A paper sale beyond the holding creates equity; a trade at the mark costs exactly its fee if and only if it is a buy or within the holding.
- Rounding a quantity twice changes it exactly when it was clamped to a minimum that does not round to itself.

## Model

| member | source | states |
|---|---|---|
| Text.StrLtExactly | app/api/operator_session_store.py:98-101 | the string order: where two strings first differ, the lesser ends or has the smaller character |
| Text.FirstDifferenceDecides | app/api/operator_session_store.py:98-101 | after a common beginning the first differing characters decide |
| Text.PrefixIsLess | app/api/operator_session_store.py:98-101 | a proper beginning of a string is less than it, and not the other way |
| Text.SpaceExactly | app/api/operator_session_store.py:107-114 | the blanks that stripping removes |
| Text.StripExactly | app/api/operator_session_store.py:107-114 | stripping takes away exactly the blanks at both ends |
| Text.FoldsLetter | app/main_loop.py:934-935 | lower- and upper-casing exchange the two alphabets letter by letter |
| Text.FoldsNothingElse | app/main_loop.py:934-935 | and leave every other character |
| Text.FoldsEach | app/main_loop.py:934-935 | a string is folded character by character |
| KeyedRows.SortContents | app/api/operator_session_store.py:98-101 | the sort is a permutation with no row below a later one |
| KeyedRows.SortStable | app/api/operator_session_store.py:98-101 | rows tied with any given row keep their dictionary order |
| KeyedRows.SortReplace | app/api/operator_session_store.py:69-80 | overwriting a row in place commutes with sorting when every row of another id stays on the same side of it |
| KeyedRows.SortKeep | app/api/operator_session_store.py:107-114 | sorting commutes with keeping any subset of rows |
| KeyedRows.RewriteBelowTop | app/api/operator_session_store.py:69-80 | a row outside the top n stays outside when it is written again on the same side of all other ids |
| KeyedRows.TopNStep | app/api/operator_session_store.py:69-80 | one write: the top n after it needs only the top n before it |
| SessionRows.SortContents | app/api/operator_session_store.py:98-101 | the sorted view holds the same rows with no row older than a later one, request (or else start) times compared character by character |
| SessionRows.SortStable | app/api/operator_session_store.py:98-101 | rows with the same sort key keep their dictionary order |
| SessionRows.SameSideIffNotEnclosed | app/api/operator_session_store.py:98-101 | two rows of one id stand on the same side of another id's row iff their keys do not enclose its key |
| SessionRows.TrimKeepsExactly | app/api/operator_session_store.py:107-114 | a row survives a trim iff it is in the first n sorted rows and its id has no surrounding blanks |
| SessionRows.TrimDropsOldest | app/api/operator_session_store.py:107-114 | with clean ids no row a trim drops is newer than one it keeps |
| SessionRows.TrimIsPrefix | app/api/operator_session_store.py:107-114 | with clean ids the sorted view of the trimmed map is the first n rows of the sorted view |
| SessionLog.TrimmedViewAgreesWithReplay | app/api/operator_session_store.py:34-80 | over clean ids whose keys enclose no other id's key, after any run of writes, audits and reopens the view is the first max_sessions rows of a replay of the whole log once something was written, the whole replay before, and the latest session agrees |
| SessionLog.AllRunsAgreeIffHarmless | app/api/operator_session_store.py:34-114 | every run over a set of sessions agrees with a replay at every limit iff its ids are clean and no id's keys enclose another id's key |
| SessionLog.ReplayHoldsLatest | app/api/operator_session_store.py:34-59 | a replay holds exactly the latest payload written under each non-empty id, once |
| SessionLog.LatestIsNewest | app/api/operator_session_store.py:91-96 | the latest session is one of the store's, if any, and none of them is newer |
| SessionLog.SessionsExactly | app/api/operator_session_store.py:98-101 | a listing is the newest rows, as many as asked for and there are, none for a limit of zero or less |
| SessionLog.CorruptCounted | app/api/operator_session_store.py:34-59 | the corrupt-line counter is the number of unreadable lines |
| SessionLog.AuditsAgreeWithReplayIff | app/api/operator_session_store.py:82-89 | audit events in memory equal their replay iff no empty event was written since opening |
| SessionLog.BlankIdBreaksAgreement | app/api/operator_session_store.py:107-114 | any session with blanks around its id is gone from memory after its own write, but replayed |
| SessionLog.EnclosedKeyBreaksAgreement | app/api/operator_session_store.py:69-80 | for any id whose keys enclose another id's key, three writes at limit 1 make memory and replay differ |
| SessionLog.NegativeLimitAgreesIff | app/api/operator_session_store.py:107-114 | at a negative limit every run agrees with a replay iff there are no more ids than the limit drops |
| OperatorSessionStore.SessionStore.constructor | app/api/operator_session_store.py:30-32 | a new store is the replay of its log |
| OperatorSessionStore.SessionStore.ReadLog | app/api/operator_session_store.py:34-59 | the load loop builds the replay, counting corrupt lines and skipping blank ids and empty events |
| OperatorSessionStore.SessionStore.WriteSession | app/api/operator_session_store.py:69-80 | a write with an id appends to log and map and trims; without one it changes nothing |
| OperatorSessionStore.SessionStore.WriteAuditEvent | app/api/operator_session_store.py:82-89 | an audit event is appended to both |
| OperatorSessionStore.SessionStore.TrimMemory | app/api/operator_session_store.py:107-114 | keeps the rows whose own key is a raw id of the first max_sessions sorted rows |
| OperatorSessionStore.SessionStore.GetSessions | app/api/operator_session_store.py:98-101 | the sorted view, cut to a non-negative limit |
| OperatorSessionStore.SessionStore.GetLatestSession | app/api/operator_session_store.py:91-96 | the first row of the sorted view, if any |
| Continuity.AcceptedIff | app/brain/data_validator.py:487-525 | a packet is accepted iff it is in time and, if it has an id, in sequence; so without an id iff in time |
| Continuity.RefusedExactly | app/brain/data_validator.py:221-313 | why a packet is refused: the first check that fails, in order |
| Continuity.AfterPacket | app/brain/data_validator.py:221-313 | the baselines, gap start and last valid time after a packet, by its verdict |
| Continuity.RunInv | app/brain/data_validator.py:221-313 | the state invariant every call keeps |
| Continuity.GapFlagExactly | app/brain/data_validator.py:382-394 | in every run the gap flag is up iff fewer packets than required were good since the last gap, and the counter is that number |
| Continuity.BaselineStep | app/brain/data_validator.py:252-313 | one call never lowers the timestamp baseline and moves the sequence baseline only strictly up |
| Continuity.BaselineRun | app/brain/data_validator.py:252-313 | the same between any two points of a run |
| Continuity.AcceptedInOrder | app/brain/data_validator.py:487-525 | accepted packets have non-reversing timestamps and strictly rising sequence ids |
| Continuity.RejectedOnlyAtTheStart | app/brain/data_validator.py:487-525 | packet i of a resumed stream is accepted iff the lost prefix of zero, one or two packets is over |
| Continuity.FlagDuringRecovery | app/brain/data_validator.py:382-394 | the value of the gap flag after each packet of a resumed stream |
| Continuity.BoundedRecovery | app/brain/data_validator.py:487-525 | from any reachable state a resumed stream loses at most its first two packets and the flag is down within 2 + recovery_required_good packets |
| Continuity.RecoveryBoundIsTight | app/brain/data_validator.py:252-313 | some reachable state needs the whole bound |
| Continuity.AcceptedExactlyFrom | app/brain/data_validator.py:487-525 | from any state a steady stream is accepted exactly from its first packet past both baselines plus the lost prefix, and never if no packet is |
| Continuity.FuturePacketBlocks | app/brain/data_validator.py:487-525 | a packet from the future takes the timestamp baseline and every steady packet before its time is refused as a reversal |
| Continuity.RecoveryWithoutIds | app/brain/data_validator.py:487-525 | bounded recovery for streams without ids, as the runtime's books come: from any reachable state at most the first packet is lost and the flag is down within 1 + recovery_required_good |
| DataValidator.SymbolsDoNotInterfere | app/brain/data_validator.py:211-219 | a symbol's state depends only on its own calls, in their order |
| DataValidator.InterleavedRecovery | app/brain/data_validator.py:487-525 | whatever other symbols do meanwhile, exactly the lost first calls of a resumed symbol, at most two, are rejected, and its flag falls within the bound |
| DataValidator.InterleavedBooks | app/brain/data_validator.py:487-525 | the same for a symbol's id-less books inside any interleaving of calls |
| DataValidator.SymbolCharExactly | app/brain/data_validator.py:28-28 | symbol characters are letters, digits and four marks |
| DataValidator.ValidSymbolExactly | app/brain/data_validator.py:201-209 | a symbol is one to 32 of them, the last perhaps a newline instead |
| DataValidator.ObserveOnlyExactly | app/brain/data_validator.py:456-458 | the four sources that only observe, case aside |
| DataValidator.PlainHealthExactly | app/brain/data_validator.py:396-418 | exactly when the plain health answer is healthy |
| DataValidator.SnapshotExactly | app/brain/data_validator.py:450-485 | exactly when the snapshot gives each reason |
| DataValidator.SnapshotHealthyIff | app/brain/data_validator.py:420-485 | the snapshot is healthy iff the plain answer is and the source, symbol and fresh timestamp conditions hold |
| DataValidator.HealthAfterAcceptance | app/brain/data_validator.py:396-418 | right after an accepted packet both answers at its clock are what the gap flag says |
| DataValidator.DataContinuityValidator.GetState | app/brain/data_validator.py:211-219 | creates the symbol's state once, or reports a malformed symbol |
| DataValidator.DataContinuityValidator.ValidateTimestamp | app/brain/data_validator.py:275-313 | the timestamp check and its state change |
| DataValidator.DataContinuityValidator.ValidateSequence | app/brain/data_validator.py:221-273 | the sequence check and its state change: no id passes, and the baseline is moved even on a gap |
| DataValidator.DataContinuityValidator.MarkGoodPacket | app/brain/data_validator.py:382-394 | counts towards recovery and clears the flag at the requirement |
| DataValidator.DataContinuityValidator.RecordData | app/brain/data_validator.py:377-380 | stores the last valid time |
| DataValidator.DataContinuityValidator.ValidatePacket | app/brain/data_validator.py:487-525 | the whole pipeline takes the specified step and verdict |
| DataValidator.DataContinuityValidator.ResetSymbol | app/brain/data_validator.py:543-547 | forgets one symbol |
| Records.PeakIsMaximum | app/main_loop.py:3480-3518 | the running peak is the maximum seen, zero before any |
| Records.AdmittedIffRecord | app/main_loop.py:3480-3518 | a value beats the peak iff it is positive and above everything before it |
| Records.AdmitRises | app/main_loop.py:3480-3518 | admitted values strictly rise from above zero |
| CandleAdmission.ProjectionIsSingleSymbolRun | app/main_loop.py:3480-3518 | one symbol's view of an interleaved run is single-symbol admission of its own candles |
| CandleAdmission.AdmitsExactlyStrictMaxima | app/main_loop.py:3480-3518 | a candle is admitted iff it is a strict running maximum above zero among its symbol's candles |
| CandleAdmission.CountsAreConserved | app/main_loop.py:3480-3518 | admitted, duplicate and stale candles add up to the active candles received, and the counters are those numbers |
| CandleAdmission.InterleavingsAgree | app/main_loop.py:3480-3518 | every order of the locked sections ends with the same baselines and the same total |
| BookThrottle.OfferExactly | app/main_loop.py:3275-3309 | what happens to a book, by symbol, mid, spread and the 200 ms since the last one processed |
| BookThrottle.InvalidCounted | app/main_loop.py:3275-3300 | the skipped-book counter is the number of unusable books of followed symbols |
| BookThrottle.OnlyOwnValidBooksCount | app/main_loop.py:3275-3309 | what a symbol processes is the greedy choice from its own valid books; invalid books and other symbols never move it |
| BookThrottle.GreedyStaysAhead | app/main_loop.py:3293-3309 | by any spaced choice's k-th book the throttle has processed more than k |
| BookThrottle.GreedyIsOptimal | app/main_loop.py:3293-3309 | no subsequence spaced by the interval is longer than what is processed |
| BookThrottle.ThrottleIsOptimal | app/main_loop.py:3275-3309 | the same for a symbol inside any interleaved stream |
| BookThrottle.OutOfOrderIsNotOptimal | app/main_loop.py:3293-3309 | the optimality above uses arrival order: an unordered stream it fails on |
| BookThrottle.WindowBound | app/main_loop.py:3302-3309 | a closed window of w nanoseconds holds at most w / interval + 1 processed books per symbol |
| MarketIngress.MainLoop.OnCandle | app/main_loop.py:3459-3518 | the admission section updates baselines and counters as specified |
| MarketIngress.MainLoop.OnOrderBook | app/main_loop.py:3246-3309 | the filter and throttle update counters and receive times as specified |
| SentimentAdmission.EngineSeesRunningMaxima | app/symbol_runtime.py:441-488 | the engine sees exactly the strict running maxima of the input times |
| SentimentAdmission.DeliveredIffRecord | app/symbol_runtime.py:441-488 | an update is delivered by its own call iff it is such a maximum |
| SentimentAdmission.PushExactly | app/symbol_runtime.py:455-463 | the buffer holds the last hundred of what was there and what is pushed |
| SentimentAdmission.SortContents | app/symbol_runtime.py:465-466 | the sorted buffer holds the buffer's entries in ascending order |
| SentimentAdmission.SortedHasOneNew | app/symbol_runtime.py:462-476 | at most the pushed entry is newer than the last one sent |
| SentimentAdmission.SymbolRuntime.KeepNewer | app/symbol_runtime.py:479-486 | the rebuilt buffer holds the entries newer than the last one sent |
| SentimentAdmission.SymbolRuntime.AdmitSentimentUpdate | app/symbol_runtime.py:441-488 | buffer, sort and send refine "deliver iff newer than the last delivered", and nothing newer stays buffered |
| ObservedPairs.SymbolRuntime.RecordObservedSignal | app/symbol_runtime.py:531-542 | overwrites one lane's signal and nothing else |
| ObservedPairs.SymbolRuntime.RecordObservedVote | app/symbol_runtime.py:544-555 | overwrites one lane's vote and nothing else |
| ObservedPairs.ObserveSectorRotation | app/main_loop.py:5383-5412 | stores each produced signal with its vote, nothing when the adapter raises |
| ObservedPairs.ClearStaleSectorPair | app/main_loop.py:2343-2372 | drops a pair all of whose timestamps are older than the candle |
| ObservedPairs.ConsumeSectorRotation | app/main_loop.py:4986-5042 | admits and clears a ready pair, drops a stale one, else leaves it |
| ObservedPairs.ObserveLiquidityVoid | app/main_loop.py:5277-5299 | stores the signal first and the vote only if the adapter succeeds |
| ObservedPairs.ConsumeLiquidityVoid | app/main_loop.py:5075-5197 | admits a pair through every gate and marks its vote id consumed |
| ObservedPairs.ClassifiedExactly | app/main_loop.py:2283-2341 | the code of a pair by its names and stamps: ready iff each name given is the consumer's, blanks and case aside, and both halves carry the candle's time |
| ObservedPairs.ClearedExactly | app/main_loop.py:2343-2372 | a pair is dropped iff it carries a stamp and every stamp is older than the candle |
| ObservedPairs.ConsumedExactly | app/main_loop.py:4986-5042 | what a look takes and what it leaves |
| SectorRotation.RunSound | app/main_loop.py:5383-5412 | the invariant of every run of candle calls |
| SectorRotation.WholeRunSafety | app/main_loop.py:3482-3518 | buffered halves are both absent or from one observation, every admitted pair was observed by the call that admits it, none is admitted twice |
| SectorRotation.CallAdmitsIff | app/main_loop.py:4986-5042 | a call admits iff its candle is admitted, trading is paper, dispatch looks, and what the call itself kept is stamped with the candle and names no symbol but its own |
| LiquidityVoid.RunSound | app/main_loop.py:5075-5197 | the invariant of every interleaving of book observations and candle dispatches |
| LiquidityVoid.AtMostOnce | app/main_loop.py:5075-5197 | with fresh vote ids no id is admitted twice and no admitted vote is after its candle |
| LiquidityVoid.BlockedChangesNothing | app/main_loop.py:5075-5197 | a candle that does not admit changes nothing, the consumed marker included |
| LiquidityVoid.CandleAdmitsIff | app/main_loop.py:5075-5197 | in any run a candle admits iff trading is paper, the last signal is for its symbol, the last vote is stamped no later and has an id, and that id was not offered last |
| LiquidityVoid.AdmitsTheChanges | app/main_loop.py:5075-5197 | the marker is the last id offered to a candle, and the admitted pairs are the changes among the offers |
| LiquidityVoid.AtMostOnceIff | app/main_loop.py:5075-5197 | each id is admitted at most once iff none is offered on two symbols and none returns after a different one |
| SellAuthority.GateIgnoresClaims | app/main_loop.py:378-504 | the risk gate gives equal evidence to candidates differing only in the seven claim fields |
| SellAuthority.ClassifiedIgnoresClaims | app/main_loop.py:967-999 | so does the classification |
| SellAuthority.VerdictIgnoresClaims | app/main_loop.py:1175-1375 | with broker inventory required, such candidates get the same evidence, classification, action and verdict |
| SellAuthority.DispatchIgnoresClaims | app/main_loop.py:446-493 | gate and guardrail in dispatch order are independent of the claims too |
| SellAuthority.SellNeedsAction | app/main_loop.py:1002-1012 | after classification a sell is evaluated iff it has an action and the baseline does not refuse it, and is reported baseline-protected iff the baseline refuses |
| SellAuthority.ActionOfClassified | app/main_loop.py:967-1012 | the action a sell gets: close what is sellable or held, open an authorised short with nothing held, or none |
| SellAuthority.ClassifiedKeepsBaseline | app/main_loop.py:1217-1288 | stripping and classifying leave the baseline decision as it was |
| SellAuthority.SellNeedsBrokerInventory | app/main_loop.py:975-985 | under required inventory a sell reaches the evaluator iff the inventory is reconciled, attributed and positive in both quantities and the baseline does not refuse the gated candidate |
| SellAuthority.SellNeedsClaimOrShort | app/main_loop.py:986-999 | otherwise iff it closes a claimed position or opens an authorised short with nothing held locally, and the baseline does not refuse |
| GuardrailRules.GateEnabledExactly | app/main_loop.py:314-334 | the gate is on in paper trading, always or where inventory is required |
| GuardrailRules.InventoryExactly | app/main_loop.py:323-334 | only a wired exposure manager reports inventory, and only its report can require it |
| GuardrailRules.AskingAnswers | app/main_loop.py:428-493 | with a positive price and quantity the gate answers as the exposure manager does about this candidate, its claims heard only where inventory is not required |
| GuardrailRules.NotAskingAnswers | app/main_loop.py:399-438 | it passes what it is not on for and refuses what it cannot ask about, each under its own code |
| GuardrailRules.GateKeeps | app/main_loop.py:494-504 | the quantity changes only to a positive adjustment of an authorised candidate |
| GuardrailRules.AskingWrites | app/main_loop.py:395-504 | every metadata field after the gate has asked |
| GuardrailRules.NotAskingWrites | app/main_loop.py:395-438 | and when it has not |
| GuardrailRules.SequenceExactly | app/main_loop.py:1096-1106 | a dictionary stands for itself, a list for its dictionaries, in order |
| GuardrailRules.OrExactly | app/main_loop.py:470-493 | the values that count as absent |
| GuardrailRules.PositionExactly | app/main_loop.py:938-946 | a positive position is a listed record of the symbol, case and separators aside, with a positive quantity |
| GuardrailRules.SeparatorsDropped | app/main_loop.py:934-935 | the three separators are dropped, everything else kept |
| GuardrailRules.ShortIntendedExactly | app/main_loop.py:949-956 | short intent, outright or by the first action field given |
| GuardrailRules.ShortAuthorizedExactly | app/main_loop.py:959-964 | short authority by any of three fields |
| GuardrailRules.LocalHeldExactly | app/main_loop.py:990-994 | a locally simulated long |
| GuardrailRules.SellableExactly | app/main_loop.py:977-987 | the inventory that backs a sell |
| GuardrailRules.ClassificationExactly | app/main_loop.py:967-999 | the classification of a sell |
| GuardrailRules.ActionExactly | app/main_loop.py:1002-1012 | a buy buys, a sell closes or opens a short by its classification, another side is its own verb |
| GuardrailRules.BaselineExactly | app/main_loop.py:1109-1121 | the baseline that protects: the first accepted one, else the configured one once loaded |
| GuardrailRules.BaselineBlocksExactly | app/main_loop.py:1247-1266 | when the baseline refuses, and what its evaluator is asked |
| GuardrailRules.GatedExactly | app/main_loop.py:1190-1206 | when the builder applies the gate itself |
| GuardrailRules.RequestedExactly | app/main_loop.py:1213-1215 | the notional asked for |
| GuardrailRules.BuyVerdict | app/main_loop.py:1175-1376 | a buy is evaluated as a buy iff the baseline does not refuse it |
| GuardrailRules.OtherVerdict | app/main_loop.py:1002-1012 | any other side is always evaluated under its own name |
| GuardrailRules.VerdictExactly | app/main_loop.py:1175-1376 | which exit is taken and what it carries, for every side |
| GuardrailRules.VerdictWrites | app/main_loop.py:1242-1270 | the action, classification, broker intent and block written back |
| GuardrailRules.VerdictKeeps | app/main_loop.py:1228-1270 | every other field is as the gate left it, claims taken away where inventory is required |
| GuardrailRules.AssetClassExactly | app/main_loop.py:1073-1081 | the asset class a candidate is routed under |
| GuardrailRules.ContextExactly | app/main_loop.py:1232-1244 | the protective context is the candidate's own with the classification of a sell in it |
| GuardrailRules.RouteRoutes | app/main_loop.py:1290-1347 | order type, time in force, portal and quote: the candidate's own, else the portal's defaults, asked again with them filled in |
| GuardrailRules.EvaluatedExactly | app/main_loop.py:1349-1376 | the whole request an evaluated candidate is judged on |
| SellAuthority.ApplyPortfolioRiskGate | app/main_loop.py:378-504 | the gate's in-place changes to quantity and metadata |
| SellAuthority.WriteClassification | app/main_loop.py:1217-1288 | strips claims when inventory is required and writes classification and action |
| SellAuthority.DecideVerdict | app/main_loop.py:1288-1375 | baseline, missing sell authority, or routing and evaluation |
| SellAuthority.BuildPreTradeGuardrailVerdict | app/main_loop.py:1175-1375 | the whole builder, verdict and metadata |
| SleeveSelection.FallbacksKeepOrder | app/main_loop.py:4010-4013 | fallbacks are the router's list filtered, order and repeats kept |
| SleeveSelection.AddedInOrder | app/main_loop.py:4018-4021 | what an active profile adds comes in registry order |
| SleeveSelection.NoCandidates | app/main_loop.py:3931-3976 | no fusion, or neither a routed sleeve nor a profile, gives no candidates |
| SleeveSelection.CandidatesExactly | app/main_loop.py:3943-4021 | otherwise the candidates are exactly the four sleeves' installed ones that are preferred, eligible or (under a profile) any; the routed sleeve or else ShadowFront first and once, then eligible, then the rest |
| SleeveSelection.AddedInTurn | app/main_loop.py:3977-4021 | the sleeves only a profile brings in come in their fixed turn |
| SleeveSelection.FirstProducer | app/main_loop.py:4087-4214 | the first position that produces a signal, all before it declining |
| SleeveSelection.WinnerIsFirstProducer | app/main_loop.py:4069-4214 | a MovingFloor pair pre-empts every sleeve; otherwise the winner is the first candidate with a signal |
| Dispatch.ActsInOrder | app/main_loop.py:4337-4751 | a dispatch does each act at most once and in the order of its stages, one compile of either kind and one of block and submit |
| Dispatch.SubmitsOnceAfterCompile | app/main_loop.py:4583-4691 | a submit comes after a compile, is the only one, and excludes blocking and any other compile |
| Dispatch.VotedExactly | app/main_loop.py:4069-4214 | a vote is there iff a MovingFloor pair or the first sleeve with a signal brings one |
| Dispatch.SubmitsIff | app/main_loop.py:4622-4691 | with a vote and nothing raised up to there, it blocks iff the frame says BLOCK or NO_TRADE and binds by candle truth or metadata, and submits iff not |
| Dispatch.ActsAreBooked | app/main_loop.py:4608-4743 | over any acts the metrics move by the numbers of counts, acceptances, refusals and blocks |
| Dispatch.CyclesOfDispatch | app/main_loop.py:4608-4743 | the cycles a dispatch counts are what it accepts, refuses and blocks, plus one iff it raises between count and booking |
| Dispatch.RunAccounting | app/main_loop.py:3136-3178 | over any run cycles are submitted plus rejected plus no-submit compiles plus the dispatches that raised between count and booking |
| Dispatch.PlainAccountingIff | app/main_loop.py:4608-4743 | the plain law holds iff no dispatch raised there, on the enforced branch or around the submit call |
| Dispatch.WatchdogAfter | app/main_loop.py:4337-4350 | a dispatch that arms leaves the watchdog armed iff it raises afterwards; one that does not leaves it alone |
| Dispatch.ArmedExactly | app/main_loop.py:4337-4350 | after any run the watchdog is armed iff a dispatch raised after arming it and none armed it since |
| Dispatch.CancelsIff | app/main_loop.py:4744-4751 | a dispatch that arms cancels as its last act iff it does not raise |
| Dispatch.TokensAreFresh | app/monitoring/stall_watchdog.py:86-109 | an arming's token is positive and never below an earlier one, or zero when disabled |
| Dispatch.ArmedByLiveArm | app/monitoring/stall_watchdog.py:86-119 | after any calls the watchdog is armed iff some arming has neither been replaced nor cancelled by its own token |
| Dispatch.StallWatchdog.Arm | app/monitoring/stall_watchdog.py:86-109 | replaces any earlier arm under a new token; zero when disabled |
| Dispatch.StallWatchdog.Cancel | app/monitoring/stall_watchdog.py:111-119 | disarms only for the current token |
| Dispatch.MainLoop.CollectCandidates | app/main_loop.py:3931-4021 | the candidate list |
| Dispatch.MainLoop.AskSleeves | app/main_loop.py:4087-4214 | the sleeve loop asks in order and stops at the first signal |
| Dispatch.MainLoop.ArmAndCompile | app/main_loop.py:4337-4350 | with a vote: acts, metrics and watchdog end as the stage machine does, exception or not, each act logged where it happens |
| Dispatch.MainLoop.CompileVote | app/main_loop.py:4583-4604 | compiles once the watchdog is armed, or raises with it armed and no cycle counted |
| Dispatch.MainLoop.CountCompile | app/main_loop.py:4605-4621 | counts the cycle after the compile, or raises with it not counted |
| Dispatch.MainLoop.Route | app/main_loop.py:4622-4691 | rejects without submitting under an enforced frame, else submits, or raises with the cycle counted and nothing booked |
| Dispatch.MainLoop.Book | app/main_loop.py:4692-4743 | books the outcome of the submit, accepted or refused, or raises with neither booked |
| Dispatch.MainLoop.CancelWatchdog | app/main_loop.py:4744-4751 | cancels under the token of this arming, or raises and leaves it armed |
| Dispatch.MainLoop.CompileNoSubmitFrame | app/main_loop.py:3136-3178 | counts a no-submit compile that succeeds |
| Dispatch.MainLoop.DispatchFusion | app/main_loop.py:3903-4751 | one dispatch takes the specified step |
| Calendar.DaysBeforeYearClosedForm | app/session_manager.py:161-184 | the day count agrees with the closed form of Python's `date.toordinal` |
| Calendar.OrdinalInjective | app/session_manager.py:161-184 | ordinals identify dates |
| Calendar.PrevNext | app/session_manager.py:186-223 | stepping a date back undoes stepping it forward, as the days around Thanksgiving need |
| Calendar.NthWeekdayExactly | app/session_manager.py:161-184 | for n = 1 to 4, the one date of the month with that weekday in the n-th seven days |
| Calendar.FifthIsLastOfFollowingMonth | app/session_manager.py:174-182 | for n = 5, the last such weekday of the month after |
| Calendar.MemorialExactly | app/session_manager.py:136-138 | what the rule gives for Memorial Day is the last Monday of June |
| Calendar.GoodFridayExactly | app/session_manager.py:125-134 | the five Good Fridays listed |
| Calendar.FallbackHolidaysExactly | app/session_manager.py:103-159 | the dates of the fallback list: four fixed, five by weekday and week, and the listed Good Fridays |
| Calendar.FallbackTradesExactly | app/session_manager.py:103-159 | trading days on the fallback list |
| Calendar.NoAugustHoliday | app/session_manager.py:103-159 | the fallback list has no date in August |
| Calendar.FallbackIsUnending | app/session_manager.py:103-159 | from every date trading resumes, so the skip loops end on the fallback list |
| SessionHours.EarlyCloseExactly | app/session_manager.py:186-223 | the days that close at 13:00: three fixed dates and the days beside Thanksgiving |
| SessionHours.CloseTimeExactly | app/session_manager.py:296-318 | 13:00 on those days, 16:00 otherwise |
| SessionHours.FallbackThanksgivingExactly | app/session_manager.py:207-221 | on the fallback list the fourth Thursday of November |
| SessionHours.EquityOpenExactly | app/session_manager.py:270-320 | open 9:30 to the close, and with extended hours from 8:00 to just before 20:00 without a break |
| SessionHours.OpensExactly | app/session_manager.py:270-320 | the session opens exactly at 8:00 (extended) or 9:30 of a trading day |
| SessionHours.ClosesExactly | app/session_manager.py:270-320 | and the regular one closes exactly at the close of a trading day |
| SessionHours.TodaysCloseIsLeast | app/session_manager.py:447-507 | today's close, still to come, is the least close after the query |
| SessionHours.LaterCloseIsLeast | app/session_manager.py:447-507 | otherwise the least close is that of the first trading day from tomorrow |
| SessionHours.TomorrowOpensFirstIff | app/session_manager.py:389-445 | the opening of the first trading day from tomorrow is the least one after the query iff today's is not still to come |
| SessionHours.ExtendedAnswerIsLate | app/session_manager.py:389-445 | the extended answer comes half an hour after its day opened, so it is never the least opening |
| SessionHours.NextOpenIsLeastIff | app/session_manager.py:389-445 | the answer is the least opening after the query iff the session is regular and today's opening is not still to come |
| SessionHours.FuturesNextOpenIsLeast | app/session_manager.py:389-445 | futures next-open is the least open instant at or after the query |
| SessionHours.FuturesNextCloseIsFirst | app/session_manager.py:447-507 | from Monday to the Friday close, futures next-close is the first closed instant; otherwise there is none |
| SessionHours.SundayEveningHasNoClose | app/session_manager.py:503-504 | the one open stretch without an answer is Sunday evening |
| SessionHours.SessionManager.GetHolidays | app/session_manager.py:56-102 | the yearly cache returns the holidays of the year |
| SessionHours.SessionManager.IsTrading | app/session_manager.py:248-268 | weekday and not a holiday |
| SessionHours.SessionManager.SkipToTradingDay | app/session_manager.py:389-445 | the skip loop ends at the first trading day |
| SessionHours.SessionManager.NextEquityOpen | app/session_manager.py:389-445 | in session on the least trading day after today |
| SessionHours.SessionManager.NextEquityClose | app/session_manager.py:447-507 | the least trading-day close strictly after the query |
| SessionHours.SessionManager.RemainingEquityTime | app/session_manager.py:508-520 | today's close minus now inside a session; past 20 hours at the closing instant |
| SessionHours.SessionManager.RemainingTime | app/session_manager.py:508-520 | the same for every session kind: futures run to Friday 17:00, without a bound on Sunday evening, crypto never ends |
| SessionHours.FallbackSessionManager | app/session_manager.py:51-102 | on the fallback list both equity searches end |
| Commander.ContractExactly | app/commander.py:337-373 | execution may attack iff in attack mode, below target and not more than 15% below the peak, and iff nothing vetoes; each veto stands for its own reason |
| Commander.UpdateExactly | app/commander.py:193-214 | what an update records, when it takes attack mode away, and for which reason |
| Commander.PeakIsRunningMaximum | app/commander.py:193-197 | in every interleaving the peak is the maximum of all equities |
| Commander.AfterUpdateAttackIsSafe | app/commander.py:193-214 | right after an update attack mode implies below target and at most 15% drawdown |
| Commander.AttackAboveTargetIffRace | app/commander.py:216-280 | attack mode is on at or above target iff an enable checked before the update that reached it set the mode after it and nothing disabled it since |
| Commander.RaceHappens | app/commander.py:262-268 | that race exists, and the contract still refuses |
| Commander.SequentialAttackIsBelowTarget | app/commander.py:216-268 | in sequential runs attack mode implies below target |
| Commander.Commander.UpdateEquity | app/commander.py:182-214 | peak, target and drawdown rules on the fields |
| Commander.Commander.SetAttackMode | app/commander.py:216-238 | no change when the mode is already set |
| Commander.Commander.EnableAttackMode | app/commander.py:248-268 | refuses at target, else sets the mode |
| Commander.Commander.DisableAttackMode | app/commander.py:270-280 | clears the mode |
| Commander.Commander.GetAggressionContract | app/commander.py:337-412 | reads the contract of the current state |
| Recalibration.StepMarks | app/main_loop.py:5736-5788 | a call does at most one of enter, exit, liquidate, each under exactly its conditions; so no exit in the entering call or under RECALIBRATE or EMERGENCY_HALT |
| Recalibration.RunInv | app/main_loop.py:5736-5788 | entries = exits + 1 if active, counters count the acts, start time zero when inactive, an entry is followed only by its exit |
| Recalibration.EntriesAndExitsAlternate | app/main_loop.py:5736-5788 | entries and exits strictly alternate and no liquidation falls between an entry and its exit |
| Recalibration.RecalibrationLoop.AdvanceRecalibration | app/main_loop.py:5736-5788 | one call takes the specified step on the fields and counters |
| PaperLedger.RaisesExactly | app/paper_tading.py:396-408 | a call raises iff a buy brings what is held to zero |
| PaperLedger.CashIsConserved | app/paper_tading.py:389-418 | cash is capital less buys plus sells less fees, booked or lost to a raise |
| PaperLedger.PlainConservation | app/paper_tading.py:389-418 | with positive sizes the plain law holds in every run |
| PaperLedger.HoldingsAreNetFlows | app/paper_tading.py:396-416 | with positive sizes quantities stay positive and equal each symbol's own clamped net flow, and nothing raises |
| PaperLedger.CostIsSpent | app/paper_tading.py:396-416 | a position's total cost is all that was spent on the symbol since it was last flat |
| PaperLedger.TopUpAverage | app/paper_tading.py:403-408 | a top-up averages that cost over what is now held |
| PaperLedger.EquityMove | app/paper_tading.py:418-422 | a trade at the mark moves recomputed equity by its excess at the mark less the fee |
| PaperLedger.OnlyTheFeeIff | app/paper_tading.py:410-422 | exactly the fee iff a buy or a sale within the holding |
| PaperLedger.OversellingCreatesEquity | app/paper_tading.py:410-422 | selling from an empty book raises equity |
| PaperLedger.CoveredRunLosesOnlyFees | app/paper_tading.py:381-422 | in a covered run at fixed prices equity is always capital less fees paid |
| PaperLedger.PaperTrader.Buy | app/paper_tading.py:393-408 | the buy branch on cash and positions, true when the average divides by zero |
| PaperLedger.PaperTrader.Sell | app/paper_tading.py:409-416 | the sale branch |
| PaperLedger.PaperTrader.Revalue | app/paper_tading.py:419-422 | the summing loop |
| PaperLedger.PaperTrader.UpdatePortfolio | app/paper_tading.py:381-422 | one call takes the specified step, fees and equity untouched by a raise |
| InstrumentRounding.BuyIsGreatestBelow | app/instrument_registry.py:417-428 | buy rounding is the greatest tick at or below a price of at least one tick, else one tick |
| InstrumentRounding.SellIsLeastAbove | app/instrument_registry.py:417-428 | every other side rounds to the least positive tick at or above |
| InstrumentRounding.PriceIdempotent | app/instrument_registry.py:392-428 | rounding a rounded price for either side changes nothing |
| InstrumentRounding.PriceMonotone | app/instrument_registry.py:392-428 | price rounding keeps order |
| InstrumentRounding.SidesWithinOneTick | app/instrument_registry.py:417-428 | the two sides agree or sit one tick apart around the price |
| InstrumentRounding.PickedIsNearest | app/instrument_registry.py:382-384 | no step multiple is nearer than the one picked, and ties pick an even count |
| InstrumentRounding.QuantityIsNearest | app/instrument_registry.py:382-389 | the rounded quantity is that multiple or the minimum |
| InstrumentRounding.QuantityMonotone | app/instrument_registry.py:367-389 | quantity rounding keeps order |
| InstrumentRounding.StepMultipleIsStable | app/instrument_registry.py:382-389 | a minimum that is a step multiple rounds to itself |
| InstrumentRounding.QuantityIdempotentIff | app/instrument_registry.py:382-389 | exactly when rounding twice changes nothing |
| InstrumentRounding.ClampedQuantityDrifts | app/instrument_registry.py:382-389 | a clamped quantity that rounds again |
| InstrumentRounding.OffStepExactly | app/instrument_registry.py:609-612 | off step iff no whole number of steps is within 1e-10 |
| InstrumentRounding.ValidatedExactly | app/instrument_registry.py:592-632 | exactly when any order is refused for each reason, or passes |
| InstrumentRounding.RoundedOrderExactly | app/instrument_registry.py:598-630 | the verdict on a rounded order: only an off-step minimum, the size limit and the notional limit can refuse it |
| DeepSymbols.SortedExactly | main.py:197-197 | the protected symbols once each, each preceding the next where they first differ |
| DeepSymbols.WantedExactly | main.py:201-205 | the unprotected entries, once each, in order of first occurrence |
| DeepSymbols.LongestPrefix | main.py:198-210 | the result is the protected symbols and the longest prefix both limits allow, or just the primary |
| DeepSymbols.AllocationExactly | main.py:187-210 | fails iff limits are bad or the protected symbols do not fit; the last capacity error is unreachable; no duplicates, every protected symbol, within the limit |

## Left out

- Floating point: rounding error, NaN and infinities are not modelled; money, sizes, prices and thresholds are exact reals, so drift in the paper ledger or tick rounding is not captured.
- Time zones and daylight saving: session times are Eastern wall-clock, and differences between them ignore a clock change.
- The date range of Python's `date`: years are unbounded integers.
- Failing file appends and the JSON text format of the session log: a line is what it parses to, and an append always succeeds.
- Session metadata whose id or times are not text: the source turns them into text first.
- Websocket heartbeats, price, volume and numeric checks of the data validator: stateless or independent of continuity.
- Threads other than the commander's: the ingress locks are modelled as atomic steps, the other kernels as sequential calls; work after the locked sections (engines, strategies, overlays) is not modelled.
- Re-entrant mode-change callbacks of the commander, and its text and timestamp argument checks.
- A sentiment engine call that raises: delivering an update always succeeds.
- A stopped main loop, which ignores every event, and a book without a receive time, which takes the clock's.
- The observation numbers stored with signals and votes are bookkeeping of the model; the source stores only the objects.
- Decimal text parsing and order-type metadata that is not text: parsing is a function of the environment.
- Whether a MovingFloor pair is fresh: an input of each dispatch.
- Diagnostics, scorecards, decline reasons, position sizing, net-edge evaluation and frame building inside dispatch: their results are inputs; once a vote is ready, an exception in them is a fault at the stage they belong to.
- Exceptions before a vote is ready (fusion, routing, sleeve evaluation) and in the diagnostics after a no-submit compile has been counted: they leave metrics and watchdog as the model has them at that point.
- The watchdog timer firing by itself.
- Recalibrator decisions and drawdown text: two booleans per call.
- Sector, catalogue and asset-class tables of the instrument registry: an instrument is its sizes, limits and authorisation.
- Non-integer subscription limits, which the source refuses with the same error as negative ones.
- The governance queue, control plane, chief operator, run visibility and feeds: easier twins of the session log, or input and output.
