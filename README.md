# TaxiScheduler in Dafny

A model of the core of TaxiScheduler. It is a grid simulation of autonomous taxi
dispatch with two planners and a metrics recorder. The model has four parts.

- **The transition engine.** `Environment.step` in environment.py copies a world state,
  then updates the copy in place, phase by phase: taxi actions; taxi movement with pickup
  and drop-off; request generation; request ageing and cancellation; traffic; and the clock.
  - Module `Transition` states each phase as a function on values.
  - Module `Simulation` runs the phases as the source does: a `State` class whose taxi
    array is updated entry by entry and whose request list is reassigned. Every phase
    method is proved to compute its `Transition` function, and `Step` to compute `StepSpec`.
  - Module `StepLemmas` states what one step promises.
  - Module `Observing` models `get_observation`, and `Rewards` models `get_reward`.
  - Module `Scenario` replays the state-transition scenario of test_environment.py on
    the model.
- **The MCTS planner** of mcts_policy.py (modules `MctsActions` and `Mcts`).
  - The search tree is an arena: node `i` lives at index `i` and names its parent and
    children by index.
  - The tree's methods (`Select`, `Expand`, `Backpropagate`, `Rollout`, `Iterate`)
    update it in place. Each is proved against a function or predicate on values:
    `Descend` for selection, `Grown` and `Expanded` for expansion, `Backpropagated`, and
    `Advanced` for one whole iteration.
  - `MctsPolicy` returns, as ghost results, the history of the search: one `Stage` per
    iteration and the `Round` taken between consecutive stages (`Searched`). The returned
    tree is the last stage.
- **The greedy baseline** `GreedyPolicy.selectAction` (module `Greedy`).
  - Its loops are modelled as written: a bubble sort in place, a nearest-taxi scan and a
    rebuilt idle list. The one exception is the sort's comparison, which reads
    `waitingTime`, a field `Request` does not have (see "## Findings").
    `SortAsWritten` models that sort as written: it raises on any two requests.
    `SelectAction` is the corrected policy: it sorts with `SortByWaitingTime`, which reads
    `waiting_time`.
  - `SelectAction` is proved to compute `Dispatch`, a matching of requests, longest-waiting
    first, to the nearest free idle taxi.
- **Episode bookkeeping**, `EpisodeHistory` and the averages of metrics.py (module
  `Metrics`). A Python dict is a map together with its keys in insertion order.

Randomness is passed in as oracle arguments, so every operation is deterministic:
- `StepDraws` holds one step's delay draws, arrival draws, cancellation draws and
  traffic perturbation. The Poisson count is the number of arrival draws.
- `ObservationDraws` holds the draws of an observation.
- `Oracle` holds the draws of the search.

Taxi ids equal list positions. The source relies on this at environment.py:133,
mcts_policy.py:37 and greedy_policy.py:73, and the model keeps it as an invariant of
`State`.

## Model

| member | source | states |
|---|---|---|
| Grid.Manhattan | environment.py:266-268 | The Manhattan distance is zero exactly when the two cells are equal. |
| Grid.ManhattanSymmetric | environment.py:266-268 | The distance is symmetric. |
| Grid.ManhattanTriangle | environment.py:266-268 | The distance obeys the triangle inequality. |
| Grid.MoveToward | environment.py:270-285 | It returns the current cell when it is the target. Otherwise it moves one cell and the distance to the target drops by exactly 1. It moves along x while the x coordinates differ, keeping y. |
| Grid.MoveTowardStaysInGrid | environment.py:270-285 | A step between two cells of the grid stays in the grid. |
| Grid.WalkReaches | environment.py:194-197 | After `k` steps toward a target, with `k` at most the distance, the distance left is the original minus `k`. |
| Domain.NewRequest | environment.py:22-28 | A new request has the given fields, waiting time 0, and is not cancelled. |
| Domain.NewTaxi | environment.py:9-15 | A new taxi is idle, with no request, no destination and remaining time 0. |
| Transition.Act | environment.py:130-156 | An action on a busy taxi changes nothing. An assign with a non-null, uncancelled request sends an idle taxi en route to the request's origin, with remaining time equal to the distance. A move with a target leaves the taxi idle but sets its destination and remaining time. Id and position never change. |
| Transition.ApplyActions | environment.py:130-156 | The actions are applied in list order and keep the number of taxis; what they do to each taxi is stated by `ApplyActionsFrame` and `ApplyOnePerTaxi`. |
| Transition.ApplyActionsFrame | environment.py:130-156 | Actions in any number and order never touch a busy taxi, an id or a position. They keep taxis dispatchable and on route, and never make a taxi occupied. |
| Transition.ApplyOnePerTaxi | environment.py:132-133 | With one action per taxi, at the index of its id, each taxi gets exactly the effect of its own action. |
| Transition.ApplyPrefix | environment.py:132-133 | After the first `n` actions of such a list, exactly the first `n` taxis have been acted on. |
| Transition.Advance | environment.py:160-201 | An idle taxi is left as it is. A busy taxi with remaining time > 0 takes one step toward its destination, and its remaining time drops by 1 unless the delay draw fires. On arrival (remaining time ≤ 0), an en-route taxi snaps to the origin, becomes occupied and heads for the destination with the distance as remaining time. On arrival, an occupied taxi becomes idle at its destination with everything cleared. |
| Transition.AdvanceAll | environment.py:158-201 | Every taxi goes through `Advance` with its own delay draw; the number of taxis is kept. |
| Transition.PickedUpIds | environment.py:164-175 | The pickup log has at most one id per taxi. |
| Transition.PickedUpIdsMembers | environment.py:164-175 | An id is in the pickup log iff some taxi picks up the request with that id. |
| Transition.CompletedIds | environment.py:180-192 | The completion log has at most one id per taxi. |
| Transition.CompletedIdsMembers | environment.py:180-192 | An id is in the completion log iff some taxi completes the ride of the request with that id. |
| Transition.WithoutIdMembers | environment.py:177-178 | The id filter keeps exactly the requests of other ids. |
| Transition.WithoutIdsMembers | environment.py:177-178 | Filtering by a set of ids keeps exactly the requests whose id is not in the set. |
| Transition.WithoutIdStep | environment.py:177-178 | Filtering ids one pickup at a time equals filtering them all at once. |
| Transition.WithoutNothing | environment.py:177-178 | Filtering by no ids keeps the list. |
| Transition.FirstOffOrigin | environment.py:224-226 | The redraw loop settles on the first candidate that differs from the origin. |
| Transition.NewRequests | environment.py:218-235 | New requests get consecutive ids from the counter and arrive at the current tick. Each has origin ≠ destination, a drawn destination, waiting time 0 and is not cancelled. |
| Transition.DayBands | environment.py:206-213 | Rush hour is `time % 288` in [84, 108) or [204, 228). Late night is ≥ 276 or < 60. The two bands never overlap. |
| Transition.DemandMultiplier | environment.py:206-213 | Over ticks: the multiplier is 2.0 exactly when `time % 288` is in [84, 108) or [204, 228), 0.5 exactly when it is ≥ 276 or < 60, and 1.0 at every other tick. |
| Transition.BaseTraffic | environment.py:254-261 | Over ticks: the traffic baseline is 1.5 exactly in the two rush bands of `time % 288`, 0.8 exactly late at night (≥ 276 or < 60), and 1.0 at every other tick. |
| Transition.CancelProbability | environment.py:243-244 | The probability is `base + 0.01·w` capped at 0.5, and never above 0.5. |
| Transition.CancelProbabilityMonotone | environment.py:243-244 | The cancellation probability never decreases as the waiting time grows. |
| Transition.HighDrawNeverCancels | environment.py:243-247 | A draw of at least 0.5 never cancels. |
| Transition.Age | environment.py:239-248 | Ageing adds exactly one tick of waiting and keeps every other field. The request is then cancelled iff it already was or its draw fires. |
| Transition.AgeAll | environment.py:239-248 | Each request is aged with the draw at its own index; the list keeps its length. |
| Transition.FiredIds | environment.py:246-248 | The cancellation log has at most one id per request. |
| Transition.FiredIdsMembers | environment.py:246-248 | An id is in the cancellation log iff some request with that id has a cancellation draw that fires at its new waiting time. |
| Transition.ActiveMembers | environment.py:250 | The filter keeps exactly the requests that are not cancelled. |
| Transition.ActiveIsSubsequence | environment.py:250 | The survivors keep their relative order. |
| Transition.Active | environment.py:250 | The filter never lengthens the list; its members are stated by `ActiveMembers`. |
| Transition.TrafficLevel | environment.py:252-264 | The traffic level is always in [0.8, 2.0]. With a perturbation in [-0.1, 0.1] it is within 0.1 of the time-of-day baseline (1.5 / 0.8 / 1.0), cut at 0.8. |
| Transition.StepSpec | environment.py:78-108 | A step advances the clock by one, grows the request counter by the number of arrivals, keeps the number of taxis and leaves traffic in [0.8, 2.0]. |
| StepLemmas.StepKeepsWellFormed | environment.py:130-201 | A step keeps taxi ids equal to positions, and keeps every busy taxi carrying what the next step reads. |
| StepLemmas.StepKeepsOnRoute | environment.py:130-201 | A busy taxi keeps heading for its request's origin before pickup and for its destination after it. |
| StepLemmas.StepBusyTaxi | environment.py:130-162 | Actions do not reach a busy taxi; it only goes through movement. |
| StepLemmas.StepIdleStays | environment.py:146-162 | A taxi still idle after the actions does not move, even after a `move` action. |
| StepLemmas.StepRequests | environment.py:177-250 | Every request active after a step is uncancelled and has waited one tick more. It is either an old request that was not picked up, or a new one with an id from the counter on. The survivors keep their order. |
| StepLemmas.AgedOrigin | environment.py:237-250 | Each aged request comes from the kept list (with its fields) or from the created requests. |
| StepLemmas.StepNoArrivalsNoGrowth | environment.py:177-250 | With no arrivals the active request list never grows. |
| StepLemmas.StepPickedUpLeave | environment.py:175-178 | A request picked up in a step is no longer active. Only a new request, with an id from the counter on, could share its id. |
| Simulation.StepOutcome | environment.py:78-108 | `StepSpec` is the composition of the phases, in the source's order. |
| Simulation.MovedWellFormed | environment.py:158-201 | Taxis are well formed again after movement. |
| Simulation.State.constructor | environment.py:35-39 | A state holds the given taxis, requests, tick and traffic level. |
| Simulation.Environment.constructor | environment.py:56-66 | The request counter is 0, the event logs are empty, and no step info exists yet. |
| Simulation.Environment.CreateInitialState | environment.py:68-76 | The initial state has one idle taxi per id at its drawn cell, no requests, tick 0 and traffic 1.0. |
| Simulation.Environment.CopyState | environment.py:110-128 | The copy is a fresh state holding the same value. |
| Simulation.Environment.ProcessTaxiActions | environment.py:130-156 | The taxi array becomes `ApplyActions` of its old contents. |
| Simulation.Environment.UpdateTaxiPositions | environment.py:158-201 | Taxis become `AdvanceAll` of the old ones. Picked-up requests leave the list. The pickup and completion logs grow by exactly the ids picked up and completed, in taxi order. |
| Simulation.Environment.AdvanceTaxi | environment.py:160-201 | One loop body: only entry `i` changes. The list and logs change by that taxi's pickup or completion. |
| Simulation.Environment.ArrivalRate | environment.py:205-216 | The Poisson mean is the rate times the band multiplier: between 0.5 and 2 times the rate, exactly 2 times at rush hour and 0.5 times late at night. Nothing in the model reads it: the Poisson count it parameterises is the number of arrival draws, an oracle value. |
| Simulation.Environment.GenerateNewRequests | environment.py:203-235 | The new requests are appended, and the counter grows by their number. |
| Simulation.Environment.RedrawDestination | environment.py:221-226 | The loop returns a drawn destination that differs from the origin: the first such draw. |
| Simulation.Environment.UpdateRequests | environment.py:237-250 | The list becomes the uncancelled aged requests. The cancellation log grows by exactly the ids whose draw fired, in list order. |
| Simulation.Environment.UpdateTraffic | environment.py:252-264 | The traffic becomes the clamped baseline plus perturbation. |
| Simulation.Environment.Step | environment.py:78-108 | The input state is unchanged. The result is a fresh, valid state equal to `StepSpec`, and the counter, the logs and the step info are updated to match. |
| Simulation.Environment.StepInPlace | environment.py:81-106 | The phases, the clock and the step summary run on the copy. |
| Simulation.Environment.RunPhases | environment.py:87-97 | The phases in order: the resulting taxis, requests, tick, traffic, counter and logs. |
| Simulation.Environment.GenerateAndAge | environment.py:91-97 | Generation, ageing and traffic, then the clock. |
| Simulation.Environment.ActAndMove | environment.py:87-89 | The action and movement phases. |
| Simulation.Environment.GetObservation | environment.py:287-322 | The method reads the state only and returns `Observe` of it. |
| Simulation.Environment.LastStepInfo | environment.py:324-332 | It returns the last step's summary, or the empty summary before any step. |
| Simulation.Environment.GetReward | environment.py:334-349 | Before any step only the waiting penalty counts; after one the reward is at most the profit of the completed rides less the waiting penalty. |
| Observing.Clamp | environment.py:302-303 | The result is in the grid, and equals the input when the input is already in the grid. |
| Observing.Offset | environment.py:300 | Each noise offset is a unit step. |
| Observing.NoisyPosition | environment.py:296-304 | A slip draw of at least 0.1 leaves the position as it is; otherwise the observed position is on the grid. |
| Observing.NoisyPositionNear | environment.py:296-304 | The observed position is in the grid and at most one step from the true one. It equals the true one when the draw is ≥ 0.1. |
| Observing.SeenRequests | environment.py:312-320 | The observation never lists more requests than there are; which ones it lists is stated by `SeenRequestsExactly`. |
| Observing.SeenRequestsExactly | environment.py:312-320 | Every observed request is an active one whose draw is < 0.9, and every such request is observed. |
| Observing.SeenAll | environment.py:312-320 | With every draw < 0.9, all requests are observed, in order. |
| Observing.Observe | environment.py:287-322 | The observation has the true tick, each taxi's true id and status in list order, and no more requests than the state. |
| Observing.ObserveFaithful | environment.py:287-322 | The observation has the true tick, and each taxi's true id and status with a position at most one step off. Only active requests appear, with their true fields. Traffic is within 0.1. |
| Rewards.TotalWaitingNonNegative | environment.py:345 | Non-negative waits sum to a non-negative total. |
| Rewards.Reward | environment.py:334-349 | The reward is at most the profit of the completed rides less the waiting penalty, and equals it when the step had no cancellation, no moving and no idle taxi. |
| Rewards.RewardAtMostProfit | environment.py:334-349 | The reward never exceeds the profit of the completed rides. |
| Rewards.RewardWaitPenalty | environment.py:345 | One more tick of waiting on one request costs exactly the wait penalty. |
| Rewards.TotalWaitingBump | environment.py:345 | One more tick of waiting on one request adds 1 to the total. |
| Scenario.FirstActed | test_environment.py:68-88 | The assignment is effective: taxi 0 is en route to (2, 2) with travel time 4, and taxi 1 stays parked. |
| Scenario.FirstMoved | test_environment.py:83-94 | The same tick moves taxi 0 to (1, 0), with 3 ticks left. |
| Scenario.FirstWaits | test_environment.py:83-94 | Nobody is picked up on the first tick; the rider has waited 1 tick. |
| Scenario.FirstTick | test_environment.py:83-94 | The whole state after the first tick. |
| Scenario.ApproachTick | test_environment.py:96-102 | Each quiet tick moves the taxi one cell closer, with one tick less to travel. |
| Scenario.ApproachTicks | test_environment.py:96-102 | Three quiet ticks bring the taxi onto (2, 2) with 0 left, still en route. |
| Scenario.PickupTick | test_environment.py:96-102 | The next tick picks up: the taxi is occupied, 2 ticks from (3, 3), and the request is gone. |
| Scenario.AssignmentScenario | test_environment.py:68-102 | The pickup happens on the fifth tick after the assignment, not the fourth, because arrival is checked before moving. |
| Scenario.CalmRequests | environment.py:237-250 | With no pickups and no firing draws, every request just waits one tick more. |
| MctsActions.Ucb | mcts_policy.py:17-22 | The score is infinite iff the child is unvisited. Otherwise it is the mean value plus the exploration term. It never divides by zero visits and needs a visited parent. |
| MctsActions.UnvisitedFirst | mcts_policy.py:17-22 | An unvisited child outranks every visited one. Two unvisited children tie. |
| MctsActions.AllIdle | mcts_policy.py:28 | The all-idle action is one idle action per taxi, in order. |
| MctsActions.AssignOne | mcts_policy.py:36-38 | The joint action assigns taxi `t` to the request and leaves every other taxi idle, one action per taxi. |
| MctsActions.AssignRow | mcts_policy.py:35-38 | The inner loop gives one joint action per request. |
| MctsActions.IdleTaxis | mcts_policy.py:31 | Only idle taxis of the state are listed. |
| MctsActions.IdleTaxisComplete | mcts_policy.py:31 | Every idle taxi is listed. |
| MctsActions.AssignAll | mcts_policy.py:34-38 | One action per idle taxi and request. |
| MctsActions.LegalActions | mcts_policy.py:25-40 | The all-idle action comes first, and the length is 1 + #idle × #requests. |
| MctsActions.AssignOneShaped | mcts_policy.py:36-37 | An assignment action has one action per taxi, at its index, with one assign, on an idle taxi. |
| MctsActions.AssignAllShaped | mcts_policy.py:34-38 | Every enumerated assignment is shaped. |
| MctsActions.LegalActionsShaped | mcts_policy.py:25-40 | Every legal action has one action per taxi at its index, assigns only idle taxis to active requests, has at most one assign (so no request goes to two taxis), and names only taxis of the state. |
| MctsActions.LegalActionsComplete | mcts_policy.py:34-38 | Every idle-taxi × request pair is enumerated. There is no distance cutoff. |
| MctsActions.AssignAllComplete | mcts_policy.py:34-38 | The nested loop reaches every pair. |
| Mcts.RootAbove | mcts_policy.py:81-84 | Every node's parent chain reaches the root. |
| Mcts.Backpropagated | mcts_policy.py:79-84 | The node list keeps its length, and the start node gets one more visit and `reward` more value; the rest is stated by `BackpropagatedShape`. |
| Mcts.BackpropagateStep | mcts_policy.py:81-84 | One loop round visits the current node and moves to its parent. |
| Mcts.BackpropagateDone | mcts_policy.py:81-84 | When the loop ends, exactly the chain to the root has been visited. |
| Mcts.BackpropagatedShape | mcts_policy.py:79-84 | Backpropagation reaches the root and keeps the tree's shape. Only visits and value change, and only on the path. |
| Mcts.GrownAt | mcts_policy.py:54-57 | After growing, a node is an old node, the leaf with its new children, or a new child pointing back to the leaf with its action. |
| Mcts.GrownShape | mcts_policy.py:54-57 | Appending fresh children to a leaf keeps the tree's shape. |
| Mcts.GrownExpandedBy | mcts_policy.py:54-57 | Growing keeps every earlier expansion, and the leaf is expanded by the given actions. |
| Mcts.Pick | mcts_policy.py:71 | A random choice is a legal action, in range. |
| Mcts.Playout | mcts_policy.py:68-73 | A rollout step keeps the taxis well formed. |
| Mcts.IsTraceSnoc | mcts_policy.py:67-74 | A rollout trace extended by one more step is a trace. |
| Mcts.TraceDeterministic | mcts_policy.py:67-74 | A rollout is determined by its start and its draws. |
| Mcts.TraceReadsItsDraws | mcts_policy.py:67-74 | A rollout reads only the draws at its own cursor range. |
| Mcts.RolloutWellFormed | mcts_policy.py:67-74 | Every state a rollout passes through is well formed, and each step is the source's step. |
| Mcts.RolloutCounter | mcts_policy.py:67-74 | After a rollout, the request counter has grown by the requests its draws create. |
| Mcts.TotalRewardSnoc | mcts_policy.py:74 | The total grows by each step's reward. |
| Mcts.Rollout | mcts_policy.py:62-76 | The rollout makes exactly `Depth` = 10 steps. It returns the sum of their rewards, the counter matches, and the environment's step info is that of the last step. The three event lists equal the last step's summary (`LogsMatch`). |
| Mcts.RolloutStep | mcts_policy.py:68-74 | One round: pick, step, read the reward. The trace is extended, and the step info is this step's. The three event lists equal the last step's summary (`LogsMatch`). |
| Mcts.ExpandedStep | mcts_policy.py:52-55 | The k-th child of an expansion is the source's step `StepSpec` by the k-th legal joint action, with the k-th draws, from the request counter the earlier draws leave. |
| Mcts.ExpandedWellFormed | mcts_policy.py:55 | A child's state is well formed. |
| Mcts.ExpandedStatesAt | mcts_policy.py:52-57 | Child `j` holds the leaf's state stepped by its `j`-th legal action. |
| Mcts.ExpandedInfosAt | mcts_policy.py:52-55 | Step `j` of the expansion leaves the event summary of the leaf's state stepped by its `j`-th legal action. |
| Mcts.ExpandedIsExpansion | mcts_policy.py:52-57 | The listed child states and event summaries are, position by position, those of the expansion's steps. |
| Mcts.ExpandStep | mcts_policy.py:55 | The leaf's state is unchanged. The fresh result holds the k-th child's state, the counter grows by this step's requests, and the step info is the k-th child's summary. The three event lists equal the last step's summary (`LogsMatch`). |
| Mcts.SearchTree.constructor | mcts_policy.py:8-15 | The tree starts as a lone root with no parent, no action, no children, 0 visits and value 0. |
| Mcts.BestAmong | mcts_policy.py:46 | Among the first `j` children, the result is a child whose UCB score no child beats and that beats every earlier child: the one `max` returns. |
| Mcts.BestAmongUnique | mcts_policy.py:46 | Only one position has both of those properties, so `max`'s choice is determined. |
| Mcts.FirstUnvisitedIsBest | mcts_policy.py:17-46 | When every earlier child has been visited, `max` picks the first unvisited child. |
| Mcts.Descend | mcts_policy.py:43-47 | Following the best child from `p` ends at a node with no children, at or after `p` in the arena. |
| Mcts.SearchTree.BestChild | mcts_policy.py:46 | The loop returns the child at position `BestAmong`: the first child of maximal UCB score. |
| Mcts.SearchTree.Select | mcts_policy.py:43-47 | The result is `Descend` from the start, under the given exploration term: a childless descendant of the start, possibly the start itself. |
| Mcts.SearchTree.Backpropagate | mcts_policy.py:79-84 | The nodes become `Backpropagated`: one more visit and `reward` more value on the path to the root, nothing else. The root gains exactly one visit. |
| Mcts.SearchTree.Expand | mcts_policy.py:50-59 | There is one new child per legal action, in order, each holding the step result for its action. The list is never empty, so the branch at mcts_policy.py:103-107 is unreachable. The step info is the summary of the last child's step. The three event lists equal the last step's summary (`LogsMatch`). |
| Mcts.SearchTree.AddChildren | mcts_policy.py:54-57 | The expansion loop grows the tree by one child per action. The step info is the last step's summary. The three event lists equal the last step's summary (`LogsMatch`). |
| Mcts.SearchTree.ExpandOne | mcts_policy.py:55-57 | One round of the loop: one more child, holding the k-th step's state; the step info is that step's summary. The three event lists equal the last step's summary (`LogsMatch`). |
| Mcts.SearchTree.AddChild | mcts_policy.py:56-57 | The child is appended to the leaf's children. |
| Mcts.SearchTree.MostVisitedChild | mcts_policy.py:119 | The result is the first child of maximal visits. |
| Mcts.SearchTree.Iterate | mcts_policy.py:91-114 | The round is `Advanced` from the old stage to the new one. The leaf is `Descend` from the root under the given exploration term. An unvisited leaf is rolled out from its own state (`RolledOut`); a visited one is expanded by its legal actions and one child, picked by the next draw, is rolled out (`ExpandedRollout`). The nodes become `Backpropagated` from where the rollout started with its total reward; the request counter grows by exactly the requests the expansion and rollout create; the step info is the rollout's last. The root gains one visit, and gets children exactly on the iteration after its first visit. The three event lists equal the last step's summary (`LogsMatch`). |
| Mcts.SearchTree.RolloutLeaf | mcts_policy.py:96-99 | The trace is a rollout from the leaf's state at the cursor; the nodes become `Backpropagated` from the leaf with the trace's total reward; states are unchanged; the counter grows by the rollout's requests; the cursor moves `Depth` on. The three event lists equal the last step's summary (`LogsMatch`). |
| Mcts.SearchTree.ExpandLeaf | mcts_policy.py:102-114 | `ExpandedRollout`: the tree is first `Grown` by one child per legal action, each holding its step result; the child picked by the draw after the expansion's is rolled out from its state; then the nodes become `Backpropagated` from that child with the trace's total reward. The counter grows by the requests created. The three event lists equal the last step's summary (`LogsMatch`). |
| Mcts.GrownUnique | mcts_policy.py:54-57 | Expanding a leaf by the same actions gives one tree. |
| Mcts.RolledOutDeterministic | mcts_policy.py:96-99 | A rollout from an unvisited leaf is determined by the stage it starts from: the same round, states, counter and cursor. |
| Mcts.ExpandedRolloutDeterministic | mcts_policy.py:102-114 | An expansion followed by a rollout from the picked child is determined by the stage it starts from. |
| Mcts.AdvancedDeterministic | mcts_policy.py:91-114 | One iteration is determined by the stage it starts from: the round and the stage it reaches are unique. |
| Mcts.SearchedDeterministic | mcts_policy.py:87-114 | A search of `n` rounds from a given state, counter, oracle and exploration term has exactly one history, so the tree `MctsPolicy` returns is the one the search builds. |
| Mcts.LastStepOfSnoc | mcts_policy.py:67-74 | After one more round, the last step summary is that of the round's last rollout step. |
| Mcts.SearchedSnoc | mcts_policy.py:91-114 | A search history extended by a round that advances its last stage is again a search history. |
| Mcts.SearchTree.SearchRound | mcts_policy.py:91-114 | One iteration appends its round and the stage it reaches to the history. The tree, the request counter and the cursor are the new last stage. The step info is the last round's. The three event lists equal the last step's summary (`LogsMatch`). |
| Mcts.SearchTree.RootAction | mcts_policy.py:116-120 | All-idle when the root has no children. Otherwise it is the action of the root's first most-visited child. It is always a legal action of the root's state. |
| Mcts.Search | mcts_policy.py:89-114 | After `n` iterations the history has `n` rounds, starting from a lone root at the initial counter and cursor 0. Each round is `Advanced` from one stage to the next. The tree and the request counter are the last stage's, and the step info is the last round's. The root has `n` visits and has children iff `n ≥ 2`. The three event lists equal the last step's summary (`LogsMatch`). |
| Mcts.MctsPolicy | mcts_policy.py:87-120 | The history, tree, counter and step info are as for `Search`. The result is all-idle when the root has no children (`n ≤ 1`). Otherwise it is the action of the first most-visited root child of that tree, which `SearchedDeterministic` shows is the only tree `n` rounds can build. It is always a legal action. The three event lists equal the last step's summary (`LogsMatch`). |
| Mcts.MctsPlanner.constructor | mcts_policy.py:123-126 | The planner keeps its environment and its iteration count. |
| Mcts.MctsPlanner.SelectAction | mcts_policy.py:128-129 | As `MctsPolicy`, with the planner's environment and iteration count: the returned tree is the last stage of a `Searched` history of that many rounds. The counter and step info are that history's. The action is all-idle for ≤ 1 iteration, otherwise the first most-visited root child's. It is always a legal action. The three event lists equal the last step's summary (`LogsMatch`). |
| Greedy.Defaults | greedy_policy.py:21-26 | One idle action per taxi, in order. |
| Greedy.IdleOf | greedy_policy.py:28-34 | The list holds exactly the idle taxis. |
| Greedy.Nearest | greedy_policy.py:60-70 | The result is the index of a taxi nearest to the origin, and the first such on ties. |
| Greedy.Without | greedy_policy.py:75-82 | Exactly entry `j` goes; the rest keep their order. |
| Greedy.Apply | greedy_policy.py:72-73 | Writing the assignments keeps one entry per taxi; where they go is stated by `ApplyAssigns`. |
| Greedy.Matching | greedy_policy.py:54-83 | The number of pairs is min(#requests, #idle). |
| Greedy.MatchingServes | greedy_policy.py:54-83 | Requests are served in sorted order. |
| Greedy.MatchingFromPool | greedy_policy.py:54-83 | Every matched taxi comes from the idle pool. |
| Greedy.MatchingDistinct | greedy_policy.py:54-83 | No taxi is matched twice. |
| Greedy.MatchingNearest | greedy_policy.py:60-73 | Each matched taxi is nearest to its request among the taxis still free. |
| Greedy.MatchingFirstNearest | greedy_policy.py:60-70 | Of equally near free taxis the scan keeps the first: a free taxi earlier in the pool than the matched one is strictly farther. |
| Greedy.WithoutDistinct | greedy_policy.py:75-82 | Removal keeps the ids distinct. |
| Greedy.WithoutDropsId | greedy_policy.py:75-82 | The removed taxi leaves the pool. |
| Greedy.WithoutKeeps | greedy_policy.py:75-82 | Every other taxi stays in the pool. |
| Greedy.IdleOfIndices | greedy_policy.py:28-34 | Idle taxis have distinct ids, in range, and there are `CountIdle` of them. |
| Greedy.MatchingFromIdle | greedy_policy.py:28-73 | Matched taxis are idle taxis of the state, at their id's index. |
| Greedy.ApplyAssigns | greedy_policy.py:72-73 | Each pair's assignment is at its taxi's index, and every other entry is unchanged. |
| Greedy.ApplyCount | greedy_policy.py:72-73 | Exactly one assignment per pair. |
| Greedy.DispatchMeaning | greedy_policy.py:20-85 | Taxi by taxi, matched idle taxis are assigned the first requests, in order, and all others idle. There are min(#requests, #idle) pairs, with no taxi twice. |
| Greedy.DispatchOnlyIdle | greedy_policy.py:20-85 | Entry `i` is taxi `i`'s. Only taxis idle in the input are assigned, each with a request of the list. |
| Greedy.DispatchCount | greedy_policy.py:54-83 | The number of assigned taxis is min(#requests, #idle taxis). |
| Greedy.Dispatch | greedy_policy.py:20-85 | One action per taxi; its meaning is stated by `DispatchMeaning`, `DispatchOnlyIdle` and `DispatchCount`. |
| Greedy.SelectAction | greedy_policy.py:20-85 | The corrected policy: it sorts with `SortByWaitingTime`, reading `waiting_time` where the source reads `waitingTime`. It modifies nothing and returns `Dispatch` for a permutation of the requests sorted longest-waiting first, with requests of equal waiting time in the state's order; by `SortedUnique` that order is the only one. |
| Greedy.SortByWaitingTime | greedy_policy.py:42-52 | The bubble sort, in place, leaves a permutation in non-increasing waiting time, and is stable: requests of equal waiting time keep their relative order. |
| Greedy.WithWaitMembers | greedy_policy.py:47-50 | The requests of one waiting time are exactly the members with that waiting time. |
| Greedy.WithWaitAppend | greedy_policy.py:47-50 | Selecting one waiting time distributes over concatenation. |
| Greedy.SwapKeepsTies | greedy_policy.py:47-50 | Swapping two neighbours of different waiting time (the only swap the strict `<` makes) keeps the order among every waiting time. |
| Greedy.SortedUnique | greedy_policy.py:42-52 | Two lists sorted by non-increasing waiting time with the same order within every waiting time are equal, so a stable sort has one result. |
| Greedy.BubblePass | greedy_policy.py:45-51 | One pass settles one more entry and permutes. |
| Greedy.SwapNext | greedy_policy.py:48-50 | Exactly the two neighbours are swapped. |
| Greedy.CompareStep | greedy_policy.py:47-50 | A compare-and-swap keeps the settled suffix and moves the least waiting time one place on. |
| Greedy.PassEnds | greedy_policy.py:45-51 | A full pass leaves the least waiting time at the end of the prefix. |
| Greedy.ReadWaitingTime | greedy_policy.py:47 | The waiting-time attribute read at line 47, under the given spelling: it yields the request's waiting time exactly when the spelling is `waiting_time`, and raises otherwise. |
| Greedy.SortAsWritten | greedy_policy.py:42-52 | The sort as written raises iff there are ≥ 2 requests and the name is not `waiting_time`. When it raises, the requests are left as they were. |
| Greedy.AssignRequests | greedy_policy.py:54-83 | The assignment loop computes `Dispatch`. |
| Greedy.AssignRound | greedy_policy.py:54-83 | One round adds the next matching pair and writes its assignment. |
| Greedy.FindNearest | greedy_policy.py:60-70 | The scan returns `Nearest`: first strict minimum. |
| Greedy.RemoveIndex | greedy_policy.py:75-82 | The rebuilt list is `Without` the chosen index. |
| Metrics.Dict.Put | metrics.py:31 | A store sets the entry. A new key goes last in the order, and an existing one keeps its place. |
| Metrics.KeysCount | metrics.py:103-110 | A dict has as many keys in its order as entries. |
| Metrics.NewEvent | metrics.py:8-14 | A new event has no timestamps. |
| Metrics.WithMark | metrics.py:42-43 | Exactly one timestamp is set. |
| Metrics.Arrive | metrics.py:23-32 | Afterwards exactly the ids known before and the ids of the new requests are known. |
| Metrics.ArriveKeeps | metrics.py:23-32 | Known events and their order are kept. Afterwards exactly the old ids and the new requests' ids are known. |
| Metrics.ArriveNew | metrics.py:23-32 | Each unknown id gets the event of its first request, with no timestamps. |
| Metrics.Note | metrics.py:34-44 | Noting timestamps changes neither the known ids nor their order. |
| Metrics.NoteMeaning | metrics.py:34-44 | Keys are unchanged. A listed known event gets the timestamp only if it had none of that kind (first write wins). Unknown ids are ignored, and nothing else changes. |
| Metrics.NoteIdempotent | metrics.py:34-44 | Noting twice is noting once, whatever the times. |
| Metrics.AddIdle | metrics.py:71-80 | Afterwards exactly the taxis counted before and the listed ids have counters. |
| Metrics.AddIdleMeaning | metrics.py:71-80 | Each counter grows by the number of times its id occurs, others are unchanged, and new taxis are added. |
| Metrics.IdleStepMeaning | metrics.py:76-79 | One id adds one to its counter, creating it if needed. |
| Metrics.AddIdleTotal | metrics.py:71-80 | The total grows by the list's length. |
| Metrics.IdleFromEmpty | metrics.py:71-80 | From no counters, there is one counter per distinct id, and their sum is the list length. |
| Metrics.MeanIdleFromEmpty | metrics.py:102-112 | From no counters, the average idle time is the list length over the number of distinct taxis, or 0 for an empty list. |
| Metrics.WaitOf | metrics.py:85-89 | A wait is the pickup time when present, else the cancellation time, else none. |
| Metrics.Waits | metrics.py:84-89 | At most one wait per visited event. |
| Metrics.WaitRound | metrics.py:86-89 | The loop's branches add exactly the event's wait. |
| Metrics.WaitsEmpty | metrics.py:82-93 | No wait is recorded iff no event has a pickup or cancellation time. |
| Metrics.SumPermutation | metrics.py:94-100 | The sum is independent of order. |
| Metrics.WaitsPermutation | metrics.py:84-89 | Another visiting order gives the same waits, permuted. |
| Metrics.MeanWaitOrderFree | metrics.py:82-100 | The average wait does not depend on dict order. |
| Metrics.EpisodeHistory.constructor | metrics.py:17-21 | The history starts with empty dicts, revenue 0 and no rides. |
| Metrics.EpisodeHistory.NoteNewRequests | metrics.py:23-32 | `None` is a no-op; otherwise the events become `Arrive`. |
| Metrics.EpisodeHistory.NotePickups | metrics.py:34-44 | `None` is a no-op; otherwise the events become `Note` with pickup. |
| Metrics.EpisodeHistory.NoteCancellations | metrics.py:59-69 | `None` is a no-op; otherwise the events become `Note` with cancellation. |
| Metrics.EpisodeHistory.NoteEach | metrics.py:37-44 | The shared loop computes `Note`. |
| Metrics.EpisodeHistory.NoteDropoffs | metrics.py:46-57 | The events become `Note` with dropoff. Completed rides grow by the list length, unknown ids included. |
| Metrics.EpisodeHistory.NoteIdleTaxis | metrics.py:71-80 | `None` is a no-op; otherwise the counters become `AddIdle`. |
| Metrics.AverageWaitTime | metrics.py:82-100 | The result is the mean of the waits in dict order, or 0 when there are none. |
| Metrics.AverageIdleTime | metrics.py:102-112 | The result is the mean of the counters, or 0 on an empty dict. |
| Metrics.SummarizedMetrics | metrics.py:120-121 | The four figures are the two averages, the completed rides and the revenue. |

## Left out

- Floating point is modelled as `real`. This covers `traffic_level`, the reward, the averages and the UCB score. Rounding is not modelled.
- `ucb_score`'s exploration term `c * sqrt(log(parent.visits) / child.visits)` is an uninterpreted parameter `explore`. Only the infinite score for unvisited children and the mean-value part are modelled.
- Probability distributions are not modelled. The Poisson count, `randint`, `random.random`, `random.uniform` and `random.choice` are oracle values. Only how the code uses each draw is modelled.
- Simulation.Environment.Step: the model excludes, as states and actions the engine and the policies never produce, the inputs below; what the source does with each is stated here and is not modelled.
  - Taxi ids that differ from list positions: `step` never indexes by `taxi.id` (environment.py:133 indexes by the action's id), so the source runs on; the model identifies a taxi with its position.
  - An action id at or past the number of taxis raises `IndexError` at environment.py:133; a negative one picks a taxi counted from the end of the list.
  - An en-route taxi without a request raises on arrival (environment.py:167 reads the request's origin); one with a request but no destination snaps to the origin on arrival and raises in `_move_toward` (environment.py:196, 273) otherwise.
  - An occupied taxi without a destination gets position `None` on arrival (environment.py:186) and raises in `_move_toward` otherwise.
  - The destination redraw loop (environment.py:224-226) is given finitely many draws, ending in one that differs from the origin; on a one-cell grid the source loops forever.
- Greedy.SelectAction: requires that taxi ids equal list positions. Otherwise the source writes `actions[bestTaxi.id]` at the wrong index or out of range. It is the corrected policy: it sorts by `waiting_time`, where the source's sort raises (`Greedy.SortAsWritten`).
- Mcts.MctsPolicy: requires the same well-formed state and that every redraw loop of its oracle ends.
- Aliasing is not modelled: `_copy_state` shares `assigned_request` with the input state (environment.py:116). Taxis and requests are values here. This is faithful because `step` never writes to that object.
- `rollout`'s `if not actions: break` (mcts_policy.py:69-70) is not modelled, because the legal actions always contain the all-idle action. For the same reason, the no-children branch at mcts_policy.py:103-107 is not modelled (`Expand` proves its result non-empty).
- Mcts.SearchTree.constructor: the tree keeps node states in a separate list (`states`) next to the node arena, rather than in each node.
- Mcts.SearchTree.Valid: only the root's expansion is tied to its legal actions (`RootLegal`). Other nodes' expansions are kept but not related to their own states' legal actions.
- Mcts.Playouts: a rollout step on a state that no rollout can reach returns it unchanged.
- Metrics: the in-place update of a `RequestEvent` object is modelled as replacing its entry in the events map. No other reference to an event exists in the source.
- Metrics.EpisodeHistory.NoteDropoffs: the write is stated through `MarkOf`/`WithMark` on the dropoff timestamp.
- `totalRevenue` is never updated by the source; the model keeps it as a field read by `SummarizedMetrics`.
- `GreedyConfiguration` (greedy_policy.py:11-13) and the unused `cfg`/`env` fields of `GreedyPolicy` (greedy_policy.py:16-18) are not modelled.
- `Environment.get_reward` is modelled as the function `GetReward` over `Rewards.Reward`, which uses the weights of `RewardConfiguration` (reward.py:10-17). `reward.computeStepReward` is not part of this model: it reads a weight the configuration never defines.
- `__repr__` methods, printing and plotting are not modelled.
- The drivers and drafts (run_mcts.py, run_greedy.py, experiments.py, planning.py, eval-reward.py) and settings.py are not part of this model.

## Findings

| source | as written | input that shows it | evidently intended | confidence | as-written member | corrected member |
|---|---|---|---|---|---|---|
| greedy_policy.py:47 | The bubble sort compares `requests[b].waitingTime`, but `Request` defines the field as `waiting_time` (environment.py:27). Any comparison raises `AttributeError`. | Any state with two or more active requests. The first inner-loop comparison raises. | Sort by `waiting_time`, longest-waiting first. | not executed | Greedy.SortAsWritten | Greedy.SortByWaitingTime |
