# DOW-Chain-EPP congestion simulator, modelled in Dafny

This project models the core of the DOW-Chain-EPP simulator. The simulator is a discrete-time model of a
congested main blockchain pathway (L1) plus alternative pathways (L2s). An
"EPP" controller watches the main queue, and when it is congested it
activates alternatives and moves transactions onto them. The three core layers
are modelled as pure functions over immutable records:

- **Pathway** (`pathway.dfy`, module `Pathways`). A FIFO queue of
  transactions with a token-bucket processor. Every busy tick earns one unit
  of processing power. Each completed transaction costs
  `processingTimePerTransaction`, which is `1 / (capacityTPS || 1)`, or
  `Infinity` when `capacityTPS || 1` is not positive, i.e. only for a negative
  configured capacity (an absent or zero capacity gives time 1).
- **EPP controller** (`controller.dfy`, module `Controller`). The
  reactive step `checkAndReact` works as follows.
  - It classifies the severity of the main queue.
  - If the circuit breaker is tripped, it runs the breaker's recovery countdown.
  - On a glitch it either trips the breaker, or it activates the fastest
    cooled-down alternative and moves a clamped share of the main queue.
    The move goes to a ready alternative chosen by sort order plus a
    persistent round-robin cursor.
  - Without a glitch it retires idle alternatives under hysteresis rules.

  The sorts are modelled by a stable insertion sort on (key, configuration
  index) (`ordering.dfy`, module `Ordering`).
- **Simulation** (`state.dfy` module `State`; `engine.dfy` module `Engine`).
  The simulation record holds the pathways, the activation records keyed by
  name, the statistics and the movement log. Its primitives are activate,
  deactivate, move and record-glitch, plus the headline classifier. The
  engine adds:
  - construction, `run` and `stop`;
  - the degradation event;
  - arrival generation;
  - the per-tick order: headline and snapshot, events, controller,
    processing, maximum-queue statistic, arrivals, tick advance;
  - the tick loop with its summary.

`js.dfy` (module `Js`) holds the JavaScript value idioms the core relies on.
`x || d` on an optional number is modelled as `Option` with a default, where a
configured `0` counts as absent. `Infinity` thresholds are modelled as `None`
(never reached). `-Infinity` tick stamps are modelled as `Never`. A pathway's
capacity can become `NaN` or `±Infinity` after a degradation division, so it is
a `Num`.

The central invariant is conservation: queued transactions plus processed
counters always equal `totalTransactionsGenerated`. It is proved for every
step and for the whole run (`Engine.FullRun`). The loop is generic over any
tick function that satisfies `Engine.Lawful`, and `Engine.TickLawful` shows
that the simulator's own tick does. Other proved properties:

- the closed-form completion count and long-run throughput of a pathway;
- the fairness of the round-robin cursor;
- the exact trip and recovery conditions of the circuit breaker;
- the clamping of move amounts;
- the hysteresis rule for deactivation;
- the restoration of a degraded capacity and processing time at the end of
  a degradation, whatever traffic passes through the pathway meanwhile.
  `Engine.DegradationReachesEnd` shows that the simulator's own ticks carry
  the degraded values from the start tick to the end tick.
  `Engine.RunRestoresDegradation` puts this together with the end-tick event.
  `Engine.LoopFollowsAdvance` shows that the tick loop runs exactly these ticks.

Behaviour of the code that a reader might not expect, and that the model
follows:

- The default distribution strategy is `'leastCongested'`
  (`src/eppController.js:91`); sorting by gas fee happens only when
  `'mostEconomical'` is configured.
- A configured capacity of `0` falls back to 1 TPS through `|| 1`
  (`src/pathway.js:13`). Only a negative capacity gives an infinite
  processing time.
- `tickMovements` is never cleared, so every snapshot carries the whole
  movement log (`src/simulation.js:26`, `243`).
- The headline classifier compares the main queue with the raw severity
  thresholds (`src/simulation.js:133-136`). The controller uses
  `threshold || Infinity` (`src/eppController.js:31-32`). A threshold of `0`
  therefore gives a "CRITICAL GLITCH" headline while the controller sees no
  glitch (`State.ZeroThresholdDisagrees`).

## Model

| member | source | states |
|---|---|---|
| Pathways.TimeOfCapacity | src/pathway.js:14 | the processing time is finite exactly when the capacity is a positive number or +Infinity; +Infinity capacity gives time 0, which the processing step treats as invalid, so such a pathway completes nothing |
| Pathways.TimeIsReciprocal | src/pathway.js:13-14 | for a positive capacity the processing time is positive and its product with the capacity is exactly 1 |
| Pathways.NewPathway | src/pathway.js:8-18 | a new pathway has the given name and configuration, an empty queue and zero power |
| Pathways.NewPathwayTime | src/pathway.js:13-14 | positive capacity c gives time 1/c; missing or zero capacity gives time 1; the time is infinite exactly when the capacity is negative; a finite time is positive |
| Pathways.AddTransaction | src/pathway.js:24-26 | the new queue is the old queue followed by the transaction; nothing else changes |
| Pathways.AddAllAppends | src/simulation.js:241 | adding a run of transactions one at a time with addTransaction is the same as appending the whole run to the queue, which is how arrivals and moves are modelled |
| Pathways.ShiftTransactions | src/pathway.js:33-39 | the taken items followed by the remaining queue are the old queue, and exactly min(count, length) items are taken (none when count <= 0) |
| Pathways.Drain | src/pathway.js:69-75 | the completed prefix followed by the rest is the queue; on exit the queue is empty or the power is below the cost; power never goes negative and never grows |
| Pathways.DrainSpends | src/pathway.js:69-70 | the remaining power is the starting power minus the cost of the completed transactions |
| Pathways.Process | src/pathway.js:53-82 | completions followed by the new queue are the old queue; an empty queue resets power to 0; a non-positive finite time completes nothing and changes nothing; an infinite time only earns power; otherwise the queue is empty or the power is below the time on exit; power stays non-negative |
| Pathways.ProcessPower | src/pathway.js:64-70 | after a busy tick the power is the old power + 1 minus k times the time, for k completions |
| Pathways.ProcessProgress | src/pathway.js:64-69 | a busy pathway with time at most 1 completes at least one transaction per tick; with infinite time it never completes any |
| Pathways.ProcessCount | src/pathway.js:64-75 | a busy tick completes exactly min(queue length, floor((power + 1) / time)) transactions |
| Pathways.ThroughputConverges | src/pathway.js:53-82 | a pathway whose queue does not run dry completes exactly floor((power + n) * capacity) transactions over n ticks, so the long-run rate is the capacity |
| Ordering.SortStable | src/eppController.js:53-58 | the result is a permutation of the candidates ordered by key, with ties kept in configuration order, as a stable sort does |
| Ordering.Insert | src/eppController.js:53-58 | inserting a candidate that comes earlier in configuration order than every ranked one keeps the sequence ranked and adds exactly that candidate |
| Ordering.RankingUnique | src/eppController.js:53-58 | two sequences ranked this way with the same elements are equal, so the ranking is determined by the candidates alone |
| State.FindAlt | src/simulation.js:236 | finds the first alternative with the name, or reports that none has it |
| State.FindAltUnique | src/simulation.js:236 | with distinct names, the lookup of an alternative's name finds that alternative |
| State.RecordGlitch | src/simulation.js:248 | only the glitch counter changes, by exactly one |
| State.Activate | src/simulation.js:216-224 | a known inactive pathway becomes active at the current tick, and the path-switch counter grows by one; otherwise nothing changes; no other record changes |
| State.Deactivate | src/simulation.js:226-233 | an active pathway becomes inactive with its deactivation stamp set to the current tick; otherwise nothing changes; no other record changes |
| State.ActivateIdempotent | src/simulation.js:216-224 | activating twice is the same as activating once |
| State.ActivateThenDeactivate | src/simulation.js:216-233 | activating then deactivating in one tick leaves the pathway inactive with both stamps at the current tick and one extra path switch |
| State.Move | src/simulation.js:235-246 | an unknown target or count <= 0 moves nothing and returns 0; otherwise exactly min(count, main length) head items go, in order, to the target's tail, other alternatives are untouched, a movement is logged only when non-empty, and the multiset of queued transactions is unchanged |
| State.TransferConserves | src/simulation.js:239-241 | moving a prefix of the main queue to one alternative keeps names, total queue length and the multiset of queued transactions |
| State.MoveClamped | src/simulation.js:237-243 | a count at least the main length empties the main queue and logs the whole length |
| State.SeverityOf | src/eppController.js:27-32 | severity is critical iff the main queue reaches the critical threshold, and warning iff it does not but reaches the warning threshold; absent or zero thresholds are never reached |
| State.DetermineHeadline | src/simulation.js:116-140 | the headline follows the priority breaker, storm window, degradation window, then critical, warning and nominal by the raw thresholds |
| State.HeadlineAgreesWithSeverity | src/simulation.js:131-139 | outside breaker, storm and degradation, and with non-zero thresholds, the headline's glitch class agrees with the controller's severity |
| State.ZeroThresholdDisagrees | src/simulation.js:133 | a critical threshold of 0 makes the headline critical while the controller sees no glitch |
| State.Ready | src/eppController.js:47 | a ready alternative is active; with no activation delay an active alternative is ready from its activation tick on |
| Controller.Strategy | src/eppController.js:90-94 | the strategy is empty only when adaptive switching picks an empty onCritical, and sorting by gas fee is used only when mostEconomical is configured as the default or as onCritical |
| Controller.StrategyChoice | src/eppController.js:90-94 | on a critical glitch with adaptive switching the strategy is onCritical; in every other case it is the configured default, or leastCongested when none is configured |
| Controller.ReadyFrom | src/eppController.js:45-49 | the candidates are exactly the ready alternatives (active and past activationTick + delay), in configuration order |
| Controller.Ranking | src/eppController.js:45-58 | the ranked candidates are ordered by key and are exactly the ready alternatives |
| Controller.Select | src/eppController.js:44-71 | no target iff no alternative is ready (cursor untouched); otherwise the target is the ready alternative at the wrapped cursor position in the ranking, and the cursor becomes that position + 1 |
| Controller.ReadyFromIgnoresController | src/eppController.js:45-49 | the ready candidates do not depend on the controller fields, so moving the cursor leaves the candidate list unchanged |
| Controller.Chosen | src/eppController.js:60-68 | k consecutive selections from a non-empty ranking make exactly k choices, and the m-th is the candidate m steps after the wrapped cursor around the ring |
| Controller.ChosenRotates | src/eppController.js:60-68 | the m-th of k consecutive choices is the candidate m places after the wrapped cursor, around the ring |
| Controller.ChosenCoversAll | src/eppController.js:60-68 | n consecutive choices from n distinct candidates are pairwise distinct and include every candidate |
| Controller.RankingIgnoresCursor | src/eppController.js:45-58 | moving the round-robin cursor does not change the ranked candidates |
| Controller.SelectAtCursor | src/eppController.js:60-68 | with the cursor at c, a selection takes the candidate at the wrapped position and leaves the cursor one past it |
| Controller.SelectSequenceFromWalks | src/eppController.js:60-68 | repeated selections from any cursor, with nothing else changing, make the choices of the ring walk from that cursor |
| Controller.SelectSequenceWalks | src/eppController.js:60-68 | repeated selections without other changes walk the ranking cyclically from the wrapped cursor |
| Controller.RoundRobinFair | src/eppController.js:60-68 | as many consecutive selections as there are ready candidates choose every ready alternative exactly once |
| Controller.EligibleFrom | src/eppController.js:169-174 | the activation candidates are exactly the inactive alternatives whose cooldown since deactivation has passed |
| Controller.TryActivate | src/eppController.js:168-185 | with no candidate nothing changes; otherwise exactly one candidate with minimal processing time, earliest in configuration order on ties, is activated |
| Controller.Share | src/eppController.js:151-153 | the share is never 0: it is percentageToMoveCritical on a critical glitch when set, else percentageToMove, else 0.5; below critical the critical setting plays no part |
| Controller.Unhalved | src/eppController.js:150-156 | the amount before halving is the least of ceil(q * share), the per-move maximum when one is set, and q: it is at most each and equal to one of them |
| Controller.MoveAmount | src/eppController.js:146-161 | without congestion the amount is exactly the least of ceil(q * share), the per-move maximum and q; a congested target gets the floor of half of it; it never exceeds q, the maximum or ceil(q * share), and with a share in (0, 1], no cap and no congestion it is ceil(q * share) >= 1 |
| Controller.ProceedToMove | src/eppController.js:142-166 | an empty main queue or a zero amount changes nothing; otherwise exactly the computed amount is moved to the target; the controller, activations and statistics are untouched |
| Controller.BreakerCondition | src/eppController.js:78-88 | the breaker can trip only with a set, non-zero critical threshold, and only when some active alternative has reached it |
| Controller.HandleBreakerActive | src/eppController.js:113-140 | the recovery ticker is incremented; on reaching the interval (default 10) it is reset and the breaker clears iff every alternative's queue is under the recovery threshold (default 5); nothing but the controller changes |
| Controller.Redistribute | src/eppController.js:89-104 | the cursor is the one the selection under the current strategy leaves; with no target nothing else changes; with target i, the first n transactions of the main queue (n the move amount for i) go in order to the tail of i and are logged, other alternatives, activations and statistics are untouched, and transactions are conserved |
| Controller.HandleGlitch | src/eppController.js:75-105 | when the breaker condition holds, the only change is tripping with the ticker reset; otherwise the fastest eligible alternative is activated first, and the redistribution (cursor, target and move) is computed on the state after that activation, whose activation records the result keeps |
| Controller.DeactivateFrom | src/eppController.js:188-203 | walking the alternatives from index k, each later alternative ends in its hysteresis outcome, and the earlier ones and other keys keep their records |
| Controller.HandleNormal | src/eppController.js:187-204 | every alternative's record becomes its hysteresis outcome and nothing else changes |
| Controller.DeactivationNeedsAllThree | src/eppController.js:196-202 | inactive alternatives are untouched, and an active one is retired iff main queue <= deactivateThresholdMainQueue (default 0), its own queue is empty and it has been active minActiveDurationTicksAlternative (default 10) ticks |
| Controller.ReactToGlitch | src/eppController.js:34-36 | on a glitch, the glitch counter grows by exactly one; if the breaker condition holds the only other change is the trip with the ticker reset; otherwise the result is the redistribution computed after recording the glitch and activating the fastest eligible alternative; transactions are conserved |
| Controller.CheckAndReact | src/eppController.js:21-42 | a tripped breaker changes only the controller; otherwise a glitch is recorded exactly when severity is not none; invariants and conservation hold |
| Controller.GlitchActivatesThenMoves | src/eppController.js:34-101 | on an untripped glitch that does not trip the breaker, the glitch is counted, the fastest eligible alternative is activated, and the target selection and the move are made on the state after that activation, whose activation records the result keeps |
| Controller.BreakerSuspendsControl | src/eppController.js:21-25 | while tripped, no glitch, activation, deactivation or move happens and the cursor is kept; only the recovery countdown runs |
| Controller.TripIff | src/eppController.js:78-88 | on a glitch the breaker trips iff it is enabled, some alternative is active and all active ones reach the critical threshold; the tripping call resets the ticker and neither activates nor moves |
| Controller.NormalOnlyDeactivates | src/eppController.js:34-41 | without a glitch only the hysteresis deactivations happen; the cursor is not reset |
| Engine.NewAlts | src/simulation.js:29-32 | one new pathway per configured alternative, in order |
| Engine.Init | src/simulation.js:10-50 | tick 0, not running, STANDBY headline, every alternative inactive with activation tick 0 and deactivation stamp -Infinity, all counters 0 |
| Engine.InitKeepsInvariants | src/simulation.js:29-49 | with distinct names the constructed state is well-formed, nothing is queued, and conservation holds |
| Engine.RunKeepsInvariants | src/simulation.js:52-62 | starting a run keeps well-formedness and conservation and leaves the statistics as they were |
| Engine.Run | src/simulation.js:52-62 | an error iff a callback is not a function, with no state touched; otherwise running from tick 0 with the STARTING UP headline |
| Engine.Stop | src/simulation.js:64-65 | stop only clears the running flag |
| Engine.StartDegradation | src/simulation.js:151-158 | the target remembers its capacity, which is divided by the factor, and the processing time is re-derived |
| Engine.EndDegradation | src/simulation.js:160-169 | a remembered defined capacity is restored with its processing time and forgotten; otherwise nothing changes |
| Engine.HandleEvents | src/simulation.js:142-172 | nothing changes without a known target; at the start tick the target's capacity is divided by the factor, its time re-derived and its old capacity remembered; at the end tick a remembered defined capacity and its time are restored and forgotten; on other ticks nothing changes; other alternatives are untouched |
| Engine.HandleEventsKeepsInvariants | src/simulation.js:142-172 | events keep the invariants, the names, the queued and the processed totals |
| Engine.SameTargetAtEnd | src/simulation.js:149-161 | at the end tick the event finds the same alternative by name as at the start, and the end tick is not the start tick |
| Engine.DegradationRestores | src/simulation.js:151-169 | a degradation of a positive capacity with a positive duration is undone at its end tick: capacity and time are as before the start, queue and credit are those of the end tick, and the saved entry is removed, whatever traffic passed in between; the end-tick state is one that kept the start event's values, which Engine.DegradationReachesEnd shows the simulator's ticks produce |
| Engine.OpenDegradationNeverRestored | src/simulation.js:160-161 | without a duration a degradation never ends: outside its start tick events change nothing |
| Engine.UndefinedCapacityNeverRecovers | src/simulation.js:153-166 | a pathway configured without a capacity is left with an infinite processing time from the degradation on, even after its end |
| Engine.ZeroCapacityRestoredAsStopped | src/simulation.js:153-166 | a pathway configured with capacity 0 runs at time 1 before the degradation and is left with an infinite time after it |
| Engine.TickKeepsCapacities | src/simulation.js:88-113 | within a tick only the degradation event changes capacities, processing times and remembered capacities; the controller, processing and arrivals keep them |
| Engine.EventsIgnoreHeadline | src/simulation.js:142-172 | the degradation event does not depend on the headline |
| Engine.Advance | src/simulation.js:75-96 | the running loop's ticks, one per draw vector with the headline classified first, keep well-formedness, names, parameters and the running flag and advance the clock by the number of draws |
| Engine.AdvanceStep | src/simulation.js:81-93 | running a list of draws is the first tick followed by running the rest |
| Engine.QuietTickKeepsCapacities | src/simulation.js:142-172 | a tick that neither starts nor ends the degradation keeps every capacity, processing time and remembered capacity |
| Engine.LoopTickKeepsEvents | src/simulation.js:81-93 | after the loop's tick, capacities, processing times and remembered capacities are those the tick's event set |
| Engine.AdvanceKeepsCapacities | src/simulation.js:75-96 | over ticks that neither start nor end the degradation, capacities, processing times and remembered capacities do not change |
| Engine.AdvanceKeepsEvents | src/simulation.js:75-96 | when no tick after the first starts or ends the degradation, the run ends with the capacities, times and remembered capacities that the first tick's event set |
| Engine.DegradationReachesEnd | src/simulation.js:142-172 | running from the start tick for the degradation's duration reaches the end tick with the target's capacity and time, and the remembered capacities, as the start event set them |
| Engine.RunRestoresDegradation | src/simulation.js:151-169 | a degradation of a positive capacity, run through the simulator's ticks for exactly its duration, is undone by the end-tick event: capacity and time are as before the start and the remembered value is dropped |
| Engine.LoopFollowsAdvance | src/simulation.js:75-96 | while the configured end is not passed, the loop makes one snapshot per draw vector and its final state is the one those ticks reach, apart from the running flag |
| Engine.RateOf | src/simulation.js:177-181 | the rate is loadTPS (0 when absent) for every pathway outside the storm window and for every alternative; inside the window the main rate is multiplied by the storm multiplier, and it is NaN exactly when the multiplier is missing |
| Engine.ArrivalCount | src/simulation.js:182-183 | a non-negative rate r gives floor(r) arrivals, plus one iff the draw is under the fractional part; a whole rate gives exactly r; a negative or NaN rate gives none |
| Engine.Counts | src/simulation.js:175-183 | one arrival count per pathway, main first, each from that pathway's rate and draw |
| Engine.Fresh | src/simulation.js:184-188 | n new transactions stamped with the current tick and consecutive serial numbers from the first |
| Engine.GenerateAlts | src/simulation.js:176-189 | each alternative keeps everything but its queue, which grows by exactly its own arrival count |
| Engine.SerialBlocks | src/simulation.js:185-187 | the slice of the tick's serial numbers that belongs to pathway k is the fresh block starting after the arrivals of the pathways before it |
| Engine.Generate | src/simulation.js:174-190 | only the queues and the generated counter change, and the counter grows by the total number of arrivals |
| Engine.GenerateSerials | src/simulation.js:184-188 | each pathway receives its own consecutive block of fresh serial numbers, in pathway order, appended at its tail |
| Engine.GenerateKeepsInvariants | src/simulation.js:174-190 | arrivals keep the invariants and names, and the queued total grows by exactly the number generated |
| Engine.ProcessAll | src/simulation.js:104-107 | every pathway is processed once and the main counter grows by its completions |
| Engine.Completions | src/simulation.js:105-107 | one completion count per alternative, each the number its own processing step completed |
| Engine.Credit | src/simulation.js:106 | crediting keeps the set of counters, and counters of pathways not credited keep their values |
| Engine.CreditEach | src/simulation.js:106 | with distinct names, each alternative's counter grows by exactly its own completions |
| Engine.CreditSum | src/simulation.js:106 | with distinct names, the alternatives' counters together grow by the total completions |
| Engine.ProcessAllKeepsInvariants | src/simulation.js:104-107 | each alternative's counter grows by its own completions, and queued plus processed is unchanged |
| Engine.UpdateStats | src/simulation.js:209-214 | the maximum main queue becomes the larger of itself and the current main queue |
| Engine.Finish | src/simulation.js:93-113 | the statistics update and the arrivals keep well-formedness and advance the clock by exactly one |
| Engine.Settled | src/simulation.js:89-110 | events, controller and processing keep the invariants and conservation, and only append to the movement log |
| Engine.FinishConserves | src/simulation.js:110-113 | the statistics update and the arrivals keep conservation |
| Engine.FinishMonotone | src/simulation.js:110-113 | the maximum main queue covers the queue measured after processing, and the generated count never decreases |
| Engine.Tick | src/simulation.js:88-93 | a tick keeps well-formedness and advances the clock by exactly one |
| Engine.TickConserves | src/simulation.js:101-113 | a tick keeps the names and conservation |
| Engine.TickMonotone | src/simulation.js:101-114 | maximum main queue and generated count never decrease, the maximum covers the queue after processing, and the movement log only grows |
| Engine.TickLawful | src/simulation.js:88-93 | the simulator's tick satisfies everything the loop relies on |
| Engine.TakeSnapshot | src/simulation.js:192-207 | the snapshot reports tick, main queue, breaker flag, movement log, headline, and each alternative's name, queue length, activity and readiness |
| Engine.GetSummary | src/simulation.js:259-264 | the summary reports the current tick as total ticks, and the statistics |
| Engine.Loop | src/simulation.js:75-96 | a summary is produced only after the run stops, and it describes the final state |
| Engine.LoopKeepsInvariants | src/simulation.js:75-96 | every state the loop reaches keeps the invariants and conservation |
| Engine.LoopMonotone | src/simulation.js:75-96 | over the run the maximum main queue and the generated count never decrease and the movement log only grows |
| Engine.LoopTicks | src/simulation.js:81-93 | snapshots carry consecutive ticks from the start tick, and the first shows the main queue as it stood before that tick's work |
| Engine.LoopRunsToEnd | src/simulation.js:76-95 | a running loop from tick t produces exactly totalSimulationTicks + 1 - t snapshots |
| Engine.LoopFinishes | src/simulation.js:76-78 | the loop ends at tick totalSimulationTicks + 1 with a summary of the final statistics |
| Engine.StopHaltsTicks | src/simulation.js:64-78 | after stop the loop runs no tick and leaves the statistics as they were |
| Engine.Simulate | src/simulation.js:52-61 | a summary, when produced, is of the stopped final state |
| Engine.SimulateConserves | src/simulation.js:75-96 | a whole run ends well-formed with every generated transaction queued or processed |
| Engine.FullRun | src/simulation.js:52-96 | a full run yields totalSimulationTicks + 1 snapshots at ticks 0, 1, ..., and a summary with totalTicks = totalSimulationTicks + 1 whose generated count equals queued plus processed |

## Left out

- Logging (`logger.*`) and `printSummary` are output only and have no effect on state.
- `setTimeout`, `clearTimeout` and `simulationDelayMs` are scheduling. The loop is an iteration of the tick function, one draw vector per tick.
- `Math.random` is taken as a draw `u` in [0, 1) per pathway per tick, passed in by the caller. `Engine.Generate` takes arrival counts, and `Engine.Counts` turns the draws into counts.
- Engine.Loop: when the supplied draws run out, or do not fit the pathways, the loop stops without a summary. This stands in for "the run has not finished yet" and is not a behaviour of the program.
- Engine.StopHaltsTicks: a stop between ticks cancels the pending timer, so `finalize` never runs. A stop from inside the `onTick` callback lets the current tick finish, and the next loop entry then finalizes. The model does not tell these apart: it applies the loop's guard, which finalizes. The contract therefore only states that no further tick runs and that the statistics are unchanged.
- The `onTick` and `onFinish` callbacks are represented by whether they are functions (`Engine.Run`) and by the snapshots and summary collected in `Engine.Outcome`. Their own code is not part of the core.
- IEEE-754 rounding is replaced by exact real arithmetic. This covers `processingPower`, the storm multiplier, the share of the queue to move, and the degradation division.
- Pathways.ThroughputConverges: stated only for a queue that does not run dry over the n ticks and a starting power below one transaction's cost. An idle tick resets the power, and the closed form does not hold across it.
- Alternative names are assumed distinct. The source keys activation records and counters by name, so a duplicate name would silently share one record. `Engine.InitKeepsInvariants` requires distinct names, and every later invariant builds on it.
- `eppControllerSettings` is assumed present as a record whose sub-sections may be absent. The headline classifier dereferences it and would throw without it.
- Comparators that return NaN (`Infinity - Infinity` for two absent gas fees or two infinite processing times) are modelled as "equal". This is how a stable sort treats a comparator result that is not negative.
- The storm start at `currentTick === startTick` is only logged, and it is left out. The storm's effect is modelled through its window in `Engine.RateOf` and `State.DetermineHeadline`.
- `getQueueLength` is the length of the queue sequence and has no member of its own.
- The Express/Socket.IO server, the browser UI, the web worker, and the sample configuration and stale tests are outside the simulator core and are not part of this model.
