# Verified model of the travel planner

A travel-planning service: a user's message becomes a durable Run, a worker claims the Run, assembles the
conversation's context, calls the weather and trip-planning tools, and stores a versioned result that clients
follow over an event stream. This project models the parts of the service whose correctness is not visible
from any single function, and states and proves what they guarantee.

`dafny verify dfyconfig.toml` checks the whole project. Numbers that are floats in the program are `real`
here. Code that updates arrays, objects or rows in place is imperative Dafny; each such method is tied to a
specification function or a state-machine step, and the theorems are about those. The modules named `…Outcomes`
say a second time, in fields, positions, sums and fixed texts, what those functions and steps compute.

| Files | Component |
|---|---|
| `Assignment`, `WeatherAssignment`, `Matrices` | minimum-cost matching of attraction groups to forecast days |
| `Sequences`, `Masks`, `Routing` | the visiting order of one day |
| `Clustering`, `GroupingOutcomes`, `Planner` | grouping, trimming, and the planning pipeline from ranked attractions to days |
| `RunModels`, `Texts`, `RunResults`, `ResultOutcomes`, `ResultObjects` | the versioned result of a Run |
| `RunProtocol`, `RunStore` | the Run protocol as a state machine, and its transactions on mutable rows |
| `RunSafety`, `RunHistory`, `RunTheorems` | what holds in every reachable state, for any number of workers and Runs |
| `RunOutcomes` | what each step leaves on the row it writes |
| `EventStream` | the server-sent event stream (Last-Event-ID, section 9.2 of the WHATWG HTML Standard) |
| `Tokens`, `Summaries`, `Context`, `ContextTheorems`, `ContextOutcomes` | token counting, the rolling summary, and context assembly |
| `Ranking`, `Memories`, `MemoryService` | long-term memory, its search store, and recall |

## How the parts are modelled

**Matching.** `Hungarian` keeps the program's arrays and loops. Infinity is a constructor of `Bound`. The proof
carries dual prices: no entry of the matrix is undercut, chosen entries are exact, column prices are at most
zero and zero on free columns. Such prices certify that no other assignment is cheaper.

**Routing.** The table of the bitmask search is related to the set of all walks over the stops: every stored
path is a real one with its real cost, and no walk already relaxed is cheaper. Beyond ten stops the program
tries a nearest-neighbour tour from every start. It iterates a set there, so which of several equally near stops
comes next depends on the order of iteration; that order is a parameter, `SetOrder`, of which only is known that
it meets exactly the stops not yet visited. With it `Route` is a function, and capacity is promised for that route.

**Protocol.** A transaction that locks a row is one atomic step. An `Action` carries everything the program does
not decide: clock readings, which rows other transactions hold locked, what tools and the agent returned.
`Enabled` says which actions are possible, `Step` what they do, `Replay` folds any interleaving. All processes
share one clock that does not run backwards. A renewal reads the clock before it waits for its row, so its reading
may be older than the step; a claim reads it for the expired Runs, for the selection and for the final check that
its own new lease has not run out already. The class methods in `RunStore` assign the columns one by one and are
proved to take exactly the protocol's step; their `clock` parameter is ghost.

**Context.** The message list of a session only grows at its end and ids are unique. It begins with a user message,
and those are not empty, so the first message counts at least one token; later answers may be empty. `Preparation` is
what one call returns and leaves behind; `PrepareSessionContext` computes it with the program's loops.

**Memory.** Every operation commits its table transaction first and calls the store afterwards, with the row as it
was read. `Apply` is an operation that nothing interrupts; `outages` names the memories whose store call raises, which
the program logs and ignores. A `Played` trace is any overlap of operations: transactions commit one after the other,
and each store call is delivered at any later moment, in any order, or lost. The store and the table may list rows in
any order.

## What the code does that its description does not say

- A planning request with `max_candidates` below `trip_days` passes validation but never yields a plan: with enough
  usable attractions it is refused with `CAPACITY_TOO_SMALL`, otherwise with `INSUFFICIENT_MAPPABLE_ATTRACTIONS`
  (`Planner.PlanTrip`; `Planner.RefusedForItsLimits` is such a request).
- Truncation to ten tokens or fewer may return more tokens than the limit, because the marker alone counts ten
  (`Tokens.TruncationFits` gives the exact condition, `Tokens.TruncationCanExceed` an instance).
- A Run prepared behind the summary cursor counts its dropped messages a second time, exactly when the messages
  before it do not all fit (`ContextTheorems.CursorStep`; `ContextTheorems.OutOfOrderMiscounts` is an instance under
  the default policy).
- A renewal may revive a lease that has expired, because it reads the clock before it reaches the row
  (`RunTheorems.RenewalRevives` says exactly when, `RunTheorems.LateRenewalRevives` is an instance).
- A memory deleted, or made a candidate again, is still recalled when the store call is lost
  (`MemoryService.LostDeletionIsRecalled`, `MemoryService.LostDemotionIsRecalled`), and also with no call lost, when a
  recall that read the memory before the withdrawal writes it back after it
  (`MemoryService.OvertakenDeletionIsRecalled`). `MemoryService.HistoriesStayHonest` says exactly when this happens,
  however the operations overlap.

## Model

| member | source | states |
|---|---|---|
| WeatherAssignment.Hungarian | travel_planner/weather_assignment.py:29-68 | fails exactly on an empty matrix or more rows than columns; otherwise assigns every row its own column, with a dual certificate, at a total no other assignment undercuts |
| Assignment.CertificateIsOptimal | travel_planner/weather_assignment.py:29-68 | feasible prices that are exact on the chosen entries and free of charge on unused columns prove that no assignment is cheaper |
| Assignment.CostAgainstPrices | travel_planner/weather_assignment.py:33-54 | every assignment costs at least the sum of its row and column prices, and exactly that on tight entries |
| Assignment.SumAtBounds | travel_planner/weather_assignment.py:33-54 | distinct columns never sum below all columns when prices are at most zero, with equality when the rest is free |
| WeatherAssignment.ScanColumns | travel_planner/weather_assignment.py:41-48 | the scan relaxes exactly the unreached columns through the new row and finds a finite nearest one |
| WeatherAssignment.AdjustPrices | travel_planner/weather_assignment.py:49-54 | every price of the tree and every remaining slack moves by the same step, nothing else moves |
| WeatherAssignment.FeasibilityKept | travel_planner/weather_assignment.py:49-54 | the step keeps every reduced cost of the rows inserted so far non-negative |
| WeatherAssignment.PricingKept | travel_planner/weather_assignment.py:49-54 | matched entries stay exact, column prices stay at most zero and free columns stay at zero |
| WeatherAssignment.UnreachedColumn | travel_planner/weather_assignment.py:38-57 | with at most as many rows as columns, the search always has a column left to reach, so the step is finite |
| WeatherAssignment.RoundKeeps | travel_planner/weather_assignment.py:38-57 | one growth of the alternating tree keeps tree, frontier, prices and feasibility together |
| WeatherAssignment.GrowTree | travel_planner/weather_assignment.py:36-57 | the search terminates at a free column that the tree reaches over exact entries |
| WeatherAssignment.WalkKeeps | travel_planner/weather_assignment.py:58-63 | each step of the walk back moves the single unmatched place one column on and keeps all other pairs exact |
| WeatherAssignment.Augment | travel_planner/weather_assignment.py:58-63 | the walk ends with the new row matched and the certificate intact |
| WeatherAssignment.InsertRow | travel_planner/weather_assignment.py:35-63 | one turn of the outer loop extends a certified matching by one row |
| Masks.WithBitBits | travel_planner/routing.py:105-120 | setting a bit of a mask adds that position to the set it stands for and changes no other |
| Routing.MaskOfBits | travel_planner/routing.py:105-120 | the mask of a walk has exactly the bits of the positions it visits |
| Routing.RelaxKeepsTable | travel_planner/routing.py:113-120 | one relaxation keeps the table truthful and complete for one more last step |
| Routing.SkipKeepsTable | travel_planner/routing.py:108-111 | skipping a mask and end that are not stored loses no walk |
| Routing.TableBeforeIsComplete | travel_planner/routing.py:105-120 | when the outer loop arrives at a mask, the table is truthful and no walk that leads there is cheaper than what is stored |
| Routing.FillTable | travel_planner/routing.py:105-120 | the nested loops compute that table, for every set and end |
| Routing.FullMaskIsOptimal | travel_planner/routing.py:121-122 | the entries of the full mask are at most as expensive as any order of all stops that ends there |
| Routing.ArrangementPositions | travel_planner/routing.py:89-122 | every rearrangement of the stops, repeated stops included, is a list of all their positions |
| Routing.TableRouteIsCheapest | travel_planner/routing.py:105-122 | the exact branch's route is a rearrangement of the stops with its true length, and no rearrangement is shorter, for any matrix |
| Routing.RouteByTable | travel_planner/routing.py:105-122 | the loops return that route: the cheapest end, ties decided in dictionary order |
| Routing.TourEnds | travel_planner/routing.py:94-101 | the greedy walk visits every stop once, always going to a nearest stop next |
| Routing.TourFrom | travel_planner/routing.py:94-101 | the loop walks exactly that tour, for any order in which the set is iterated, and its cost is the tour's length |
| Routing.NearestRouteIsBest | travel_planner/routing.py:92-104 | the greedy branch's route is the cheapest of the nearest-neighbour tours from every start |
| Routing.RouteByNearest | travel_planner/routing.py:92-104 | the loop returns that route, the first of equally cheap tours |
| Routing.RouteIsOpenPath | travel_planner/routing.py:89-122 | the returned route is trivial up to one stop, cheapest up to ten, the best nearest-neighbour tour beyond |
| Routing.ShortestOpenPath | travel_planner/routing.py:89-122 | returns the route and time that `Route` determines from stops, matrix and iteration order |
| Routing.RouteIsPermutation | travel_planner/routing.py:89-122 | on every branch distinct stops come back as the same stops, each once, with the true travel time |
| Routing.ShortRouteIsUnique | travel_planner/routing.py:89-122 | up to ten stops the travel time is determined by the stops, whatever the iteration order |
| Routing.SymmetricMatrix | travel_planner/routing.py:25-27 | the clustering distance is the mean of both directions, symmetric with a zero diagonal |
| Clustering.FarthestList | travel_planner/clustering.py:11-17 | the first medoid has the best score, each further one is the farthest from those before it, better score among equals |
| Clustering.InitialMedoids | travel_planner/clustering.py:11-17 | the loop computes that farthest-first list |
| Clustering.SortedByRegret | travel_planner/clustering.py:26-33 | items are placed in order of falling regret, none lost or repeated |
| Clustering.PlaceOneKeeps | travel_planner/clustering.py:35-43 | placing one item keeps loads equal to buffered loads, groups within capacity and every item counted once |
| Clustering.JoinsNearest | travel_planner/clustering.py:35-43 | an item is left out only if no group has room; otherwise it joins the nearest group with room, the least loaded among equally near ones, the first of those, and changes nothing else |
| Clustering.Worst | travel_planner/clustering.py:82-82 | the attraction given up has the worst score, the longest visit among equals, and is the first such |
| Clustering.AssignToMedoids | travel_planner/clustering.py:20-44 | the loop places every item by the specified rule: nearest group with room, else unassigned |
| Clustering.AssignedIsValid | travel_planner/clustering.py:20-44 | medoids lead their own groups, groups and leftovers partition the attractions, groups of several items fit the capacity, and no leftover fits into any group |
| Clustering.CentresDistinct | travel_planner/clustering.py:63-63 | re-centring disjoint groups yields distinct medoids, each in its own group |
| Clustering.FixedPoint | travel_planner/clustering.py:64-66 | once re-centring changes nothing, no later iteration would |
| Clustering.StoppingLosesNothing | travel_planner/clustering.py:64-66 | stopping early returns what all iterations would have returned |
| Clustering.CapacitatedKMedoids | travel_planner/clustering.py:47-67 | k distinct medoids with a valid grouping that is the first cheapest of all iterations allowed |
| Clustering.TrimCluster | travel_planner/clustering.py:76-84 | gives up the worst attractions one by one, only while the returned route overruns the day, and stops at a group whose route fits or at a single attraction |
| Clustering.DroppingKeepsMembers | travel_planner/clustering.py:76-84 | kept and dropped attractions together are the original group, each as often |
| Clustering.ShortGroupFitsIfAnyOrderDoes | travel_planner/clustering.py:78-80 | up to ten stops a group fits exactly when some order of its stops fits |
| Clustering.TrimClustersToCapacity | travel_planner/clustering.py:70-86 | group by group nothing is invented or lost, none is emptied, and every group of several fits with its returned route |
| GroupingOutcomes.RegretIs | travel_planner/clustering.py:28-31 | the regret is the gap between the two least medoid distances, or the distance of the only medoid, then the visit minutes |
| GroupingOutcomes.AscendingIs | travel_planner/clustering.py:29-29 | sorting reorders the distances, the least first |
| GroupingOutcomes.SortKeepsPlaces | travel_planner/clustering.py:33-33 | the order of assignment is falling regret, and the order of the attractions among equals |
| GroupingOutcomes.AssignmentHistory | travel_planner/clustering.py:20-44 | the assignment starts from the medoids alone and places every other attraction once, in that order, each by the rule for one item |
| GroupingOutcomes.ObjectiveIs | travel_planner/clustering.py:59-59 | a grouping is judged by the sum of all distances of items to their medoids plus 1000 and the score for every leftover |
| GroupingOutcomes.RecentredIs | travel_planner/clustering.py:63-63 | each next medoid is the first member of its group with the least sum of distances to the group |
| GroupingOutcomes.TiesGoFirst | travel_planner/clustering.py:11-17 | every medoid is the first among equally far and equally scored attractions |
| GroupingOutcomes.NearestIs | travel_planner/clustering.py:16-16 | the distance to the medoids is the least of the single distances |
| GroupingOutcomes.MinutesAre | travel_planner/clustering.py:35-43 | a group's load is the sum of its visits plus 15 minutes between each two of them |
| GroupingOutcomes.LengthIs | travel_planner/routing.py:92-122 | the time of a route is the sum of its legs |
| GroupingOutcomes.TrimHistory | travel_planner/clustering.py:76-84 | a trimmed group arises by taking out one attraction after the other, each the worst of a group that overran the day |
| Planner.SelectCandidates | travel_planner/service.py:151-160 | returns the specified choice: every usable attraction is decided in its turn, and taken exactly if there is room for it beside the better ones taken |
| Planner.ChoiceIsRanked | travel_planner/service.py:151-160 | candidates are distinct places of the ranking in its order, beginning with the first `trip_days`; any other attraction is taken if and only if the candidate limit is not reached and fewer than `trip_days` were taken before it, or visits and buffers with it stay within the whole trip |
| Planner.ChoiceSize | travel_planner/service.py:151-162 | the choice reaches one attraction per day exactly when enough are usable and the candidate limit allows it |
| Planner.ChoiceFitsTrip | travel_planner/service.py:151-160 | the load is the visits plus 15 minutes between each two; beyond the first `trip_days` it stays within `trip_days * (daily_minutes - 60)` |
| Planner.UsableAreRanked | travel_planner/service.py:128-128 | usable are exactly the ranked attractions that are not closed for good, have coordinates and a visit of at most the day without lunch, in rank order |
| Planner.TrimmedGroupFits | travel_planner/service.py:128-172 | every trimmed group fits its day, single attractions because longer visits were filtered out |
| Planner.GroupAndTrim | travel_planner/service.py:169-172 | as many non-empty groups as days, each with visits plus route within the day, trimmed from the cheapest grouping; groups and leftovers partition the candidates |
| Planner.PlanTrip | travel_planner/service.py:128-204 | refuses exactly when too few attractions are usable, or enough are and the candidate limit is below the days; otherwise the candidates are rightly chosen among the usable ones, the groups are the trimmed best grouping, every group's visits and returned route fit the day, and the match to the days is cheapest for the day prices |
| Planner.DroppedForAReason | travel_planner/clustering.py:35-86 | an attraction left out of a plan had no room in any group of the best grouping, or was given up as the worst of a group that overran its day |
| Planner.RefusedForItsLimits | travel_planner/service.py:151-162 | a valid request with enough usable attractions and a candidate limit below its days |
| Planner.EveryDayHasOneGroup | travel_planner/service.py:183-204 | every forecast day receives exactly one group |
| Planner.ScheduledOnOneDay | travel_planner/service.py:169-204 | a scheduled attraction is in one group only, listed there once, and not reported as dropped |
| RunResults.LedgerIsTail | app/run_results.py:189-197 | after any replacements the stored sources are the last hundred of the unlimited keep-latest list, whose keys stay unique |
| RunResults.InitialSound | app/run_results.py:130-176 | a new snapshot is well-formed and partial, from nothing or from the superseded one |
| RunResults.ToolAppliedSound | app/run_results.py:231-382 | a tool result keeps usable parts and stored payloads in agreement, within the schema's bounds |
| RunResults.CompletedSound | app/run_results.py:385-433 | completion leaves no part open and is complete exactly with a non-blank answer and both payloads |
| RunResults.FailureAppliedSound | app/run_results.py:436-479 | a failure keeps every payload; a final one settles every part and marks the result failed |
| RunResults.ToolProvenance | app/run_results.py:231-382 | only a successful call of a part's own tool changes its payload, and then clears the inheritance |
| RunResults.EndingProvenance | app/run_results.py:385-479 | completion and failure keep every payload with its provenance |
| RunResults.InitialProvenance | app/run_results.py:165-175 | a new Run takes over every payload of the Run it supersedes and names that Run |
| ResultOutcomes.WeatherFound | app/run_results.py:248-276 | after a forecast its payload is stored, the part is ready without code or message, the named source and the stripped notice are listed, and nothing else changes |
| ResultOutcomes.WeatherLost | app/run_results.py:277-298 | after a failed forecast the part is degraded if a payload is stored and unavailable otherwise, with the bounded code and message and its old origin; the error is listed and nothing else changes |
| ResultOutcomes.TripFound | app/run_results.py:300-352 | after a planned trip the payload is stored, the guide is ready, the route is degraded if and only if a kept warning contains one of the five tokens, and pages, route service and warnings are listed with their scope |
| ResultOutcomes.TripLost | app/run_results.py:353-378 | after a failed trip guide and route are degraded if an itinerary is stored and unavailable otherwise, with the bounded code and message and their old origins; the error is filed under the route exactly if its code names ORS |
| ResultOutcomes.OtherTools | app/run_results.py:231-382 | a missing answer counts as an empty one, and other tools change nothing but the outcome |
| ResultOutcomes.SourceTaken | app/run_results.py:189-197 | the new source stands last, after all others of another provider, address or purpose, in order, less the oldest beyond a hundred |
| ResultOutcomes.RawWarningsAre | app/run_results.py:303-307 | of a trip's warnings exactly those that are not blank are kept, in order, cut to 2000 characters and stripped |
| ResultOutcomes.PagesAre | app/run_results.py:320-332 | every page that is a mapping becomes a guide source, in order |
| ResultOutcomes.ReferencesAre | app/run_results.py:394-406 | every reference of an answer that is a mapping becomes a source, in order |
| ResultOutcomes.Answered | app/run_results.py:385-433 | completion stores the answer's text and sources, marks the parts never produced, and is complete if and only if the text is not blank and no part is missing |
| ResultOutcomes.FailureIsShown | app/run_results.py:436-479 | the last failure marks the result failed and settles each part by its kind; an earlier one adds a warning and changes nothing else |
| ResultOutcomes.Started | app/run_results.py:130-176 | a first result is empty; a later one has the payloads, sources, warnings and parts of the superseded one, usable parts naming that Run |
| ResultObjects.ReplaceSource | app/run_results.py:189-197 | replaces the entry of a key by the newest one, in last place, within a hundred |
| ResultObjects.AddWarning | app/run_results.py:200-204 | adds a warning unless it is there, within a hundred |
| ResultObjects.BuildInitialResult | app/run_results.py:130-176 | the assigned object dumps the specified initial snapshot |
| ResultObjects.ApplyContextUsage | app/run_results.py:179-186 | the assigned object dumps the snapshot with the usage stored |
| ResultObjects.ApplyToolResult | app/run_results.py:231-382 | the assigned object dumps the specified snapshot on all four branches and for unknown tools; `ResultOutcomes` says field by field what that is |
| ResultObjects.CompleteResult | app/run_results.py:385-433 | the assigned object dumps the specified completed snapshot |
| ResultObjects.FailResult | app/run_results.py:436-479 | the assigned object dumps the specified failed snapshot |
| RunSafety.AppendFacts | app/store.py:113-141 | taking the greatest sequence plus one keeps the log gapless and moves a reader's view by one event |
| RunSafety.FoldCountsClaims | app/store.py:398-419 | in an accepted log the fold's attempts are the started, retried and reclaimed events |
| RunSafety.EndingIsLast | app/store.py:113-141 | an accepted log has at most one ending event, in last place |
| RunHistory.StepKeeps | app/store.py:162-696 | every step keeps the invariant of all rows, versions and supersessions, and moves rows only forward |
| RunHistory.EnqueueKeeps | app/store.py:162-233 | a new Run with the next revision, superseding the newest success its query saw, keeps the invariant |
| RunHistory.ReachableInv | app/store.py:162-696 | the invariant holds after every interleaving |
| RunHistory.History | app/store.py:162-696 | every later state moves forward from every earlier one |
| RunTheorems.WritesAreFenced | app/store.py:113-141 | a worker's write replaces its row as specified if the worker made the latest claim in the log and the lease was live when the write read the clock, and changes nothing otherwise; every write but a renewal then changes the row |
| RunTheorems.RenewalRevives | app/store.py:433-456 | a write revives an expired lease exactly if it is a renewal by the latest claimant whose clock reading lies before the expiry, which has passed at the step, while the new expiry has not |
| RunTheorems.LateRenewalRevives | app/store.py:433-456 | a reachable state in which a renewal revives an expired lease |
| RunTheorems.EveryClaimFoundTheRunFree | app/store.py:351-430 | every claim event in a reachable log was added by a claim of that worker that found the Run waiting, or its previous lease expired, with no cancellation requested |
| RunTheorems.LogRefinesRow | app/store.py:113-141 | the events alone yield a Run's status and attempts; they are numbered 1 to n and an ending event stands last if and only if the Run has ended |
| RunTheorems.AttemptsAreBounded | app/store.py:301-397 | claims never exceed the limit, a waiting Run may always be claimed, an expired Run is either reclaimable or finalisable and never both |
| RunTheorems.CancellationIsFinal | app/store.py:645-696 | after a cancellation request a Run is never claimed again and can only end cancelled; none is cancelled without one |
| RunTheorems.EndedIsFrozen | app/store.py:301-696 | status, result and events of an ended Run never change |
| RunTheorems.ResultsAgree | app/run_results.py:84-127 | in every reachable state usable parts have payloads, ended Runs have no open part, failed and complete say what the status says, and re-reading changes nothing |
| RunTheorems.EverythingIsSourced | app/run_results.py:130-382 | every stored payload was produced by the Run's own successful call or equals that of the superseded Run it names |
| RunTheorems.PayloadsHaveAnOrigin | app/run_results.py:130-382 | following the inheritance ends at a Run of the session whose own call produced exactly that payload |
| RunTheorems.RevisionsCountRuns | app/store.py:188-223 | revisions of a session are distinct, within 1 to the number of Runs and in creation order; superseded Runs are earlier successes |
| RunTheorems.EveryRevisionExists | app/store.py:188-223 | no revision number is skipped |
| RunOutcomes.FailOutcome | app/store.py:579-642 | a holder's failure ends the Run cancelled if that was requested; else makes it pending with the retry time, the code and the message if and only if the failure is retryable and attempts are left; else ends it failed with that code; lease, result and event follow, and nothing else in the store changes |
| RunOutcomes.CompleteOutcome | app/store.py:513-576 | a holder's answer ends the Run cancelled if that was requested, else succeeded, with the answer's text as the assistant's message, no error, no lease and one event |
| RunOutcomes.ToolOutcome | app/store.py:264-298 | a holder's tool result changes the stored result and adds one event, named by success or failure |
| RunOutcomes.ContextOutcome | app/store.py:236-261 | a holder's context usage is stored in the result, with one event and no other change |
| RunOutcomes.ProgressOutcome | app/store.py:144-159 | a holder's progress adds one event and changes nothing else |
| RunOutcomes.RenewOutcome | app/store.py:433-456 | a renewal sets the lease's end to its own clock reading plus the lease and changes nothing else |
| RunOutcomes.OthersChangeNothing | app/store.py:113-141 | a write by anyone without the row's lease changes nothing |
| RunOutcomes.ClaimChoiceIs | app/store.py:301-397 | a claim ends up to twenty expired Runs that are cancelled or out of attempts, all of them if fewer, and takes the oldest unlocked Run that is pending with its retry time come, or expired with an attempt left, and not cancelled |
| RunOutcomes.ClaimOutcome | app/store.py:301-430 | those Runs end with the fixed codes, the taken one is running for the worker with one more attempt, a fresh lease, no retry time and the event of its kind, and every other row stays |
| RunOutcomes.LateClaimIsRolledBack | app/store.py:398-430 | a claim whose new lease has run out before its event is written changes nothing |
| RunOutcomes.CancelOutcome | app/store.py:645-696 | the owner's request on a Run that has not ended sets the flag; a pending Run ends cancelled at once, a running one gets an event; an ended one stays as it is |
| RunOutcomes.StrangersChangeNothing | app/store.py:162-233 | nobody but the session's owner queues or cancels a Run |
| RunOutcomes.EnqueueOutcome | app/store.py:162-233 | a queued Run is pending with no attempt, the next revision and one event, empty or with the parts of the newest success the query saw |
| RunOutcomes.ReachableRowsAreIntact | app/store.py:113-141 | every row of every reachable state meets the conditions under which these outcomes are stated |
| RunStore.AgentRun.AppendEvent | app/store.py:113-141 | appends with the greatest sequence plus one |
| RunStore.AgentRun.Claim | app/store.py:398-419 | the assigned columns and the event are the claimed row |
| RunStore.AgentRun.Finish | app/store.py:529-576 | the assigned columns are those of the answer, or of the cancellation that wins over it |
| RunStore.AgentRun.FailOrRetry | app/store.py:600-641 | the assigned columns are those of cancelled, waiting for retry, or failed, as `RunOutcomes.FailOutcome` tells them apart |
| RunStore.AgentRun.AskCancellation | app/store.py:664-696 | an ended Run is left alone, a waiting one ends at once, a running one is told |
| RunStore.Database.EnqueueMessage | app/store.py:162-233 | takes the protocol's enqueue step, whichever Runs succeed after the newest success was queried; created exactly for the owner |
| RunStore.Database.RecordContextSnapshot | app/store.py:236-261 | takes the protocol's context step; reports success exactly to the holder |
| RunStore.Database.RecordToolSnapshot | app/store.py:264-298 | takes the protocol's tool step; reports success exactly to the holder |
| RunStore.Database.AppendProgress | app/store.py:144-159 | takes the protocol's progress step; reports success exactly to the holder |
| RunStore.Database.PlanClaim | app/store.py:301-397 | the two queries decide an enabled claim: at most twenty expired Runs to end, and the oldest claimable one |
| RunStore.Database.ClaimNextRun | app/store.py:351-430 | takes the protocol's claim step, or leaves nothing behind when the new lease has run out |
| RunStore.Database.RenewLease | app/store.py:433-456 | takes the protocol's renewal step; succeeds exactly for the holder as of its clock reading |
| RunStore.Database.CompleteRun | app/store.py:513-576 | takes the protocol's completion step; reports success exactly to the holder |
| RunStore.Database.FailRun | app/store.py:579-642 | takes the protocol's failure step, whose outcome is `RunOutcomes.FailOutcome`; reports success exactly to the holder |
| RunStore.Database.RequestCancellation | app/store.py:645-696 | takes the protocol's cancellation step; found exactly for the owner |
| EventStream.SelectionIsTail | app/store.py:699-725 | on a gapless log, selecting by sequence is skipping by position |
| EventStream.LogsGrow | app/store.py:699-725 | a log read later extends one read earlier, and both are gapless |
| EventStream.TerminalSeen | app/store.py:699-725 | events read after a terminal status end with the ending event and never change again |
| EventStream.PollContinues | app/main.py:848-856 | one poll continues exactly where the previous one stopped |
| EventStream.StreamRunEvents | app/main.py:837-865 | the polls together deliver exactly the events after the cursor; the stream ends by itself exactly on a terminal status, with the final log delivered |
| Tokens.CountJoin | app/context.py:107-115 | counting is monotone along a text and joining texts never costs extra |
| Tokens.Truncate | app/context.py:117-135 | the binary search finds the longest prefix within the body budget |
| Tokens.TruncationIsTight | app/context.py:117-135 | no longer prefix within the body budget is lost |
| Tokens.TruncatedIs | app/context.py:117-135 | truncation returns the text if it fits, nothing below one token, else the longest prefix that leaves ten tokens for the marker, and the marker |
| Tokens.UniformCount | app/context.py:107-115 | a text of CJK characters counts one token each and one more, a text of others one per four, rounded up |
| Tokens.TruncationFits | app/context.py:117-135 | exactly when the truncated text keeps the limit |
| Tokens.TruncationCanExceed | app/context.py:117-135 | a text of eleven tokens cut to ten exceeds ten |
| Summaries.Summarize | app/context.py:159-191 | the loop and the truncations compute the specified summary |
| Summaries.SummaryFits | app/context.py:165-191 | a summary never exceeds a budget of eleven or more and is never empty when it covers a message |
| Summaries.NewestFactsSurvive | app/context.py:176-191 | the `k` newest dropped messages, each as its role's label and its content with white space collapsed, stand whole and newest first right after the head, whenever they count at most half the budget less 25 tokens |
| Summaries.NewestFirst | app/context.py:183-186 | the i-th new line is that of the i-th newest message |
| Summaries.LineShows | app/context.py:184-186 | a line is the label of the message's role and its words, one blank apart |
| Summaries.PreviousSurvives | app/context.py:170-176 | a previous summary within half of the budget is carried over whole |
| Texts.WordsAre | app/context.py:185-185 | the words of a text are non-empty, free of white space, and separated by white space only |
| Context.SelectRecent | app/context.py:278-292 | computes the specified selection |
| Context.FillHistory | app/context.py:297-314 | computes the specified history |
| Context.ChooseHistory | app/context.py:256-314 | budgets, selection and history of one call |
| Context.PrepareSessionContext | app/context.py:201-362 | fails for a missing session or message without a change, otherwise returns and stores exactly the specified preparation |
| ContextTheorems.SelectionIsGreedy | app/context.py:278-292 | the kept messages are the one greedy choice: within the limits unless single, never continued past the budget, stopped only for a reason |
| ContextTheorems.SelectedAreShown | app/context.py:297-314 | the second loop never skips a message and cuts nothing but a sole oversized one |
| ContextTheorems.CursorAdvances | app/context.py:234-327 | the cursor and the count move by exactly the messages dropped |
| ContextTheorems.NoMessageLost | app/context.py:234-327 | the messages covered by the cursor followed by those shown are all earlier messages in order |
| ContextTheorems.HistoryFits | app/context.py:278-314 | exactly when the shown messages stay within the recent budget |
| ContextTheorems.WrittenSummaryFits | app/context.py:316-333 | a summary written by the call counts at most `max(64, summary_budget)` and is stored with its count |
| ContextTheorems.WithinBudget | app/context.py:248-355 | the estimate is not over budget when the limit leaves the minimum besides the summary's share and the summary fits it |
| ContextOutcomes.MemoriesAreShown | app/context.py:246-254 | every recalled memory that is not blank stands in the context, in order, one to a line, and the lines are cut only if they count more than the limit |
| ContextOutcomes.CallOutcome | app/context.py:227-333 | the messages behind the cursor share the room left by prompt and memories: a third for a summary that is needed, the rest for the greedy choice of recent ones; the others are summarised and the cursor moves behind them |
| ContextOutcomes.UsageIs | app/context.py:334-355 | the reported usage counts what is returned, the estimate is the sum, and the budget is exceeded if and only if the sum exceeds the limit |
| ContextTheorems.EveryRetryIsIdempotent | app/context.py:201-362 | after any calls of a session, in any order and under any policies, repeating a call returns the same history, drops nothing more and leaves the summary columns as they are, given only that the first message counts at least one token |
| ContextTheorems.SessionsKeepCursorText | app/context.py:316-333 | no call sets the cursor without a summary text |
| ContextTheorems.RetryIsIdempotent | app/context.py:201-362 | from any state at all, repeating a call returns the same history if and only if the first call was repeatable; then nothing more is dropped and the summary stays |
| ContextTheorems.DropsWithoutNeed | app/context.py:258-296 | without a summary in view, messages are dropped exactly when the oldest counts no token and the budget is used up to the last |
| ContextTheorems.CountedMessagesAreRepeatable | app/context.py:258-296 | if every message counts at least one token, every call is repeatable |
| ContextTheorems.RetryCanDiffer | app/context.py:201-362 | why the first message has to count: with an empty answer first, a conversation the program never stores, the repeated call shows a different history |
| ContextTheorems.CursorStep | app/context.py:234-327 | a call keeps the stored count exact if and only if the cursor was not past the current message or all messages before that one fit |
| ContextTheorems.OutOfOrderMiscounts | app/context.py:234-327 | under the default policy, two calls out of order after which the stored count exceeds what the cursor covers |
| ContextTheorems.CountIsCursorPosition | app/context.py:234-327 | over a session's calls in order, the stored count is the cursor's position plus one |
| Ranking.SortForgetsOrder | app/memory.py:522-523 | the sorted candidates depend on the candidates only, not on the order they came in |
| Ranking.TextOrderIs | app/memory.py:522-522 | texts are ordered by prefix, or by the first character in which they differ |
| Ranking.SortedPositions | app/memory.py:522-522 | sorting reorders the candidates, none lost or repeated |
| Memories.HonestAfterChange | app/memory.py:275-292 | after a row changed, the store stays honest exactly when its store call went through or there was nothing to take back |
| Memories.ExtractionRevivesNothing | app/memory.py:373-409 | extraction leaves every deleted memory as it is, gives its key to no other row, demotes nothing and lowers no confidence |
| Memories.ExtractionTakesIn | app/memory.py:373-409 | afterwards every candidate's key has a row that, unless deleted, carries the last such candidate's content, at least its confidence, its confirmation and its origin |
| Memories.ExtractionAddsOnlyCandidates | app/memory.py:373-409 | a row whose key no candidate has was there before and stays as it is |
| Memories.ExtractionKeepsHonest | app/memory.py:362-416 | extraction keeps the store honest, whichever store calls fail |
| Memories.SameRanks | app/memory.py:504-521 | lists without repetitions and with the same usable values have the same ranks |
| Memories.RecallAgrees | app/memory.py:466-523 | recall through an honest store returns the table's own list, for at most a hundred confirmed memories and any listing order |
| Memories.BestIsTopRanked | app/memory.py:504-523 | the best contents are those of the top usable values by overlap, then time, then text, as many as the limit allows |
| MemoryService.ApplyKeepsHonest | app/memory.py:340-464 | from an honest store an operation that nothing interrupts leaves an honest one if and only if its store call goes through or it takes back no memory the store lists as confirmed |
| MemoryService.TransactionKeeps | app/memory.py:340-464 | the table part of every operation keeps keys unique and every row's owner and expiry |
| MemoryService.CreateOutcome | app/memory.py:340-360 | a memory entered by hand is confirmed with full confidence, its text collapsed and cut, and no other row changes |
| MemoryService.ChangeOutcome | app/memory.py:418-464 | an edit or a deletion changes the named columns of a visible row of the owner, and nothing otherwise |
| MemoryService.DeliveryOutcome | app/memory.py:275-292 | a delivered call removes a deleted memory from the store, or stores the columns of the row as read, and leaves all other entries |
| MemoryService.PlayedInv | app/memory.py:275-292 | in every overlap of operations the store holds about each memory exactly what was last sent about it |
| MemoryService.LastWord | app/memory.py:275-292 | the last call about a memory that went through is not a confirmed value exactly if every delivered confirmed value was followed by a delivered removal or demotion |
| MemoryService.HistoriesStayHonest | app/memory.py:340-523 | in every overlap of operations keys stay unique, and the store is honest if and only if for every memory no longer confirmed the removal or demotion was delivered and no confirmed value after it |
| MemoryService.RecallFollowsTable | app/memory.py:466-523 | after every overlap of operations whose withdrawals stand, a recall that is not interrupted itself returns the table's own list, for at most a hundred confirmed memories |
| MemoryService.LostDeletionIsRecalled | app/memory.py:449-464 | a deletion whose store call is lost is still recalled |
| MemoryService.LostDemotionIsRecalled | app/memory.py:418-447 | a memory made a candidate again while the store call is lost is still recalled |
| MemoryService.OvertakenDeletionIsRecalled | app/memory.py:466-485 | with no store call lost, a recall writes back a memory deleted since it was read, and it is recalled again |
| MemoryService.RankUsable | app/memory.py:504-521 | the loop ranks exactly the usable values |
| MemoryService.Service.ExtractFromRun | app/memory.py:362-416 | uninterrupted, the loop and the calls take the specified step, or none when extraction is off |
| MemoryService.Service.Update | app/memory.py:418-447 | uninterrupted, takes the specified step; found exactly for a visible memory |
| MemoryService.Service.Delete | app/memory.py:449-464 | uninterrupted, takes the specified step; found exactly for a visible memory |
| MemoryService.Service.Recall | app/memory.py:466-523 | writes back the rows as they were read, however long ago, then returns `min(limit, usable)` contents of distinct usable values of the store, or of those rows when the store fails, in falling order of overlap, time and text; none left out ranks before one returned |

## Left out

- Float rounding: costs, scores and travel times are reals; display formatting and `round` are not modelled.
- Attractions are a score and a visit time; travel times and the price of a group on a day are parameters. The weather score, the cost formula, keyword scoring, parsing, geocoding and the distance fallback only produce those inputs.
- `build_day_route`: it may move night-view stops to the end and lengthen the route, so the day's capacity is claimed for the order of `shortest_open_path` only.
- Planner.PlanTrip: the dropped attractions are a list without order; the program reports them sorted.
- Routing.RouteByNearest: promises a cheapest nearest-neighbour tour, not a shortest path; the program promises no more beyond ten stops.
- HTTP, authentication, cookies, the web pages, telemetry, prompts and model calls; the agent is an arbitrary sequence of tool results, answers and failures.
- Stored results of older formats and corrupt result JSON: `coerce_run_result` is modelled on current snapshots, whose fields are then only read back.
- `Texts.Lower` folds ASCII letters only; provider names with other letters would need the Unicode tables.
- Time stamps that no decision reads (`generated_at`, `updated_at`, heartbeat, start and finish).
- Message rows of a Run: the answer is the column `assistantMessage`; the protocol does not use the user message.
- Deletion of sessions and users, SQLite's time zones, and clocks of different processes that disagree.
- RunStore.Database.EnqueueMessage: the row of the user message and the trace context are not part of this model.
- ResultObjects.BuildInitialResult: the request snapshot that a new result inherits and overrides field by field is not part of this model; no other part of a result depends on it.
- The event stream's disconnects, heartbeats and sleeps; a client that leaves has received a prefix of the same events.
- The tiktoken branch of the counter, whose merges are not part of this repository, and summarizers other than the extractive one.
- ContextTheorems.WithinBudget: one direction; an estimate may also stay within the limit when the guard fails.
- ContextTheorems.RetryIsIdempotent: stated for a minimum of recent tokens above ten, the size of the truncation marker; the settings always use 128.
- Which candidates a prompt yields (regular expressions and hashed keys): candidates are arbitrary, as is the word overlap recall ranks by.
- Memories.ExtractionRevivesNothing: memory rows are not locked, so a table transaction that read a row may write to it after another one committed; such overlaps inside a transaction are not part of this model, where transactions commit one after the other.
- MemoryService.RecallFollowsTable: for a recall whose own reading, writing back and listing nothing interrupts; the rows of an interrupted one may mix moments.
- Memories.RecallAgrees: with more than a hundred confirmed memories the two queries may return different pages.
- Memory metadata and creation times; ids are row positions.
