# Best-first Sokoban search, modelled in Dafny

This project models the search core of a Sokoban solver built on Unity. The
solver is a best-first (A*-style) search. `AStarSearch` keeps these fields:

- an open priority queue of search nodes, keyed by `f = g + h`;
- a closed set of states;
- a nullable `solution`;
- the two flags `finished` and `running`.

Each call to `Step` moves the search forward by one node. Beside the driver
sit the integer-grid heuristic evaluators:

- `GetHeuristics`: the number of remaining goals;
- `GetHeuristicsC`: the distance from every crate to every goal, plus the
  distance from the player to the nearest crate;
- `GetHeuristicsD`: the distance from every crate to its nearest goal, plus
  the distance from the player to the nearest crate. This is the one the
  search uses;
- `ZeroHeuristics`: always 0.

Files:

- `options.dfy` holds `Option`, which stands in for the source's null
  references (a node's parent, the solution).
- `heuristics.dfy` (module `Heuristics`) holds the evaluators.
  - Each one is a closed-form pure function over the player position, the
    crate positions and the goal list.
  - `GetHeuristics`, `GetHeuristicsC` and `GetHeuristicsD` also have a
    `Compute...` method that runs the source's loop step by step and is
    proved equal to the closed form.
  - `ZeroHeuristics` has no loop. It sits in `astar_properties.dfy`,
    because what it promises is about the search.
  - Lemmas state the evaluators' bounds, their zero cases, the edge cases and
    how they compare.
- `astar.dfy` (module `AStar`) holds the driver.
  - `Problem` carries the start state, the goal test and the successor
    generator as function values.
  - The state type `S` and the action type `A` are type parameters.
  - The open queue is a `multiset` of nodes. Extract-min is `Dequeue`: some
    node of least `f`, with ties settled by a fixed but unspecified choice.
  - `StepFrom` is the rest of the source's `Step()` once a node is
    dequeued, and `Step` is one whole call of `Step()`.
  - `StepRel` relates a driver to every possible outcome of one step, for a
    queue that may return any node of least `f`. It leaves the tie-break
    entirely open.
- `astar_properties.dfy` (module `AStarProperties`) holds the facts about
  whole runs:
  - a run (`IsRun`) is any sequence of drivers that starts at the fresh
    driver and links each driver to the next by `StepRel`;
  - an invariant kept by every step;
  - every node is reached from the start by a real path whose cost is its `g`;
  - the solution is a goal reached by such a path;
  - the closed set only grows;
  - with the zero estimate the search dequeues a node of least `g`;
  - the two end scenarios: the start state is already a goal, and the start
    state has no moves.
- `sokoban.dfy` (module `Sokoban`) instantiates the driver with Sokoban states
  and the estimate the source wires in (variant D).
- `reexpansion.dfy` (module `ReExpansion`) is a five-place example that is
  searched from the fresh driver until one state is expanded a second time.

Two behaviours of the code are easy to miss:

- **A state can be expanded twice.** `Step` does not skip a dequeued node
  whose state is already closed (AStarSearch.cs:42-43).
  `closedSet.Add` is a no-op for such a state. The goal test and the
  expansion then run again, and successors that are still open are enqueued
  again. `AStarProperties.ClosedStateExpandedAgain` states this for any
  driver, and `ReExpansion.ExpandedTwice` shows it happen in a run from the
  start.
- **No crates does not give zero.** `GetHeuristicsC` and `GetHeuristicsD`
  return 1000, not 0, for a state with no crates (AStarSearch.cs:134, 169,
  185, 226). The player-to-crate minimum starts at 1000 and is never
  lowered. `Heuristics.HeuristicsD` and `Heuristics.HeuristicsC` state that
  value.

## Model

| member | source | states |
|---|---|---|
| `Heuristics.CappedNearest` | Assets/Scripts/AStarSearch.cs:190-209 | the running minimum started at 1000 is at most 1000 and at most every candidate's Manhattan distance; it equals one candidate's distance unless it stayed 1000; it is 0 when the point itself is a candidate |
| `Heuristics.CappedNearestZero` | Assets/Scripts/AStarSearch.cs:190-209 | the nearest-goal minimum of a crate is 0 exactly when the crate stands on a goal |
| `Heuristics.NearestGoalDistance` | Assets/Scripts/AStarSearch.cs:190-209 | the inner goal loop of variant D, with its hand-written absolute values and strict `<` update, computes the capped nearest-goal distance |
| `Heuristics.SumNearest` | Assets/Scripts/AStarSearch.cs:189-211 | D's crate term is at most 1000 per crate; with no goals every crate adds exactly 1000; it is 0 when every crate lies on a goal |
| `Heuristics.SumNearestZero` | Assets/Scripts/AStarSearch.cs:189-211 | D's crate term is 0 if and only if every crate lies on a goal |
| `Heuristics.HeuristicsD` | Assets/Scripts/AStarSearch.cs:175-229 | variant D is non-negative; it is exactly 1000 with no crates; it is at most 1000 per crate plus 1000; with no goals it is 1000 per crate plus the nearest player-to-crate distance |
| `Heuristics.ComputeHeuristicsD` | Assets/Scripts/AStarSearch.cs:175-229 | the single interleaved pass over the crates returns D's crate term plus the capped nearest player-to-crate distance. The per-crate minimum restarts at 1000 and the player minimum is kept across crates |
| `Heuristics.NearerCrate` | Assets/Scripts/AStarSearch.cs:213-224 | the player update of the crate loop, with its hand-written absolute values and strict `>` test, lowers the running minimum to the player-to-crate Manhattan distance exactly when that distance is smaller |
| `Heuristics.SumToAllGoals` | Assets/Scripts/AStarSearch.cs:139-153 | a crate's all-goals sum is at least its Manhattan distance to each single goal |
| `Heuristics.SumAllGoals` | Assets/Scripts/AStarSearch.cs:138-153 | C's crate term is 0 when there are no goals |
| `Heuristics.HeuristicsC` | Assets/Scripts/AStarSearch.cs:124-171 | variant C is exactly 1000 with no crates, and equals the capped nearest player-to-crate distance when there are no goals |
| `Heuristics.DistanceToAllGoals` | Assets/Scripts/AStarSearch.cs:139-153 | the inner goal loop of variant C adds up the crate's distance to every goal |
| `Heuristics.ComputeHeuristicsC` | Assets/Scripts/AStarSearch.cs:124-171 | the source's loop for C returns the all-goals crate term plus the capped nearest player-to-crate distance |
| `Heuristics.SumAllGoalsDominates` | Assets/Scripts/AStarSearch.cs:138-211 | with at least one goal, C's crate term is at least D's crate term |
| `Heuristics.HeuristicsCDominatesD` | Assets/Scripts/AStarSearch.cs:124-229 | C is at least D if and only if there is a goal or there is no crate |
| `Heuristics.CoveredCount` | Assets/Scripts/AStarSearch.cs:88-92 | the number of crates found in the goal list never exceeds the number of crates |
| `Heuristics.RemainingGoals` | Assets/Scripts/AStarSearch.cs:79-95 | the remaining-goals count lies between goals minus crates and the number of goals |
| `Heuristics.ComputeRemainingGoals` | Assets/Scripts/AStarSearch.cs:79-95 | starting at the goal count and decrementing once per crate found in the goal list gives the remaining-goals count |
| `Heuristics.CoveredIsIntersection` | Assets/Scripts/AStarSearch.cs:88-92 | with distinct crates, the decrement count equals the number of distinct goal cells that hold a crate |
| `Heuristics.RemainingGoalsBounds` | Assets/Scripts/AStarSearch.cs:79-95 | with distinct crates the remaining-goals count is non-negative, and a count of 0 means every goal holds a crate. Conversely, with distinct goals as well, every goal holding a crate gives 0 |
| `Heuristics.RepeatedGoalCountsTwice` | Assets/Scripts/AStarSearch.cs:79-95 | a goal cell listed twice with one crate on it leaves a count of 1, so the converse above needs distinct goals |
| `AStar.Init` | Assets/Scripts/AStarSearch.cs:19-29 | the search starts with exactly one queued node: the start state, `g = 0`, no parent. Nothing is closed and there is no solution |
| `AStar.MinimalExists` | Assets/Scripts/AStarSearch.cs:42 | a non-empty open queue always holds a node of least `f`, so the guarded dequeue has something to return |
| `AStar.Dequeue` | Assets/Scripts/AStarSearch.cs:42 | the dequeued node is in the queue and no queued node has a smaller `f` |
| `AStar.Expand` | Assets/Scripts/AStarSearch.cs:52-66 | every enqueued node is built from a successor whose state is not closed, with `g = cur.g + cost`, the successor's action, `parent = cur` and `h` of its state. Every such successor is enqueued, and the number enqueued is the number of successors not closed |
| `AStar.ExpandCounts` | Assets/Scripts/AStarSearch.cs:53-65 | each node is enqueued exactly as many times as there are successors, not closed, whose node it is, so identical successors give repeated copies |
| `AStar.ExpandAdds` | Assets/Scripts/AStarSearch.cs:53-65 | what expansion enqueues meets the relational description used by a step: the shape of each node, every open successor present, the total and the per-node count |
| `AStar.StepFrom` | Assets/Scripts/AStarSearch.cs:42-67 | the rest of one step once a node is dequeued. Its contract is `StepFromExpands` |
| `AStar.StepFromExpands` | Assets/Scripts/AStarSearch.cs:42-67 | once a node is dequeued, its state is closed. A goal becomes the solution, sets `finished`, clears `running` and enqueues nothing. Otherwise the rest of the queue is kept and what is added is exactly the nodes of the successors not closed (self-loops included, as closed), each as many times as successors produce it; the queue grows by that number less one, and the solution and flags stay as they were |
| `AStar.Step` | Assets/Scripts/AStarSearch.cs:31-74 | on an empty queue only `finished := true` and `running := false` change. Otherwise some node of least `f` is removed and handled as above, and the closed set never shrinks |
| `AStarProperties.InitInv` | Assets/Scripts/AStarSearch.cs:24-28 | the fresh search satisfies the driver invariant |
| `AStarProperties.ChildWellFormed` | Assets/Scripts/AStarSearch.cs:56-64 | a node added by expanding a well-formed node is a child of one of its successors |
| `AStarProperties.ExpandsPreservesInv` | Assets/Scripts/AStarSearch.cs:42-66 | handling a dequeued node keeps all queued nodes well-formed. A recorded solution is a well-formed goal, `running` is the negation of `finished`, and a solution implies `finished` |
| `AStarProperties.StepPreservesInv` | Assets/Scripts/AStarSearch.cs:31-74 | every step keeps the driver invariant |
| `AStarProperties.NodeTrace` | Assets/Scripts/AStarSearch.cs:56-58 | every well-formed node is reached from the start state by a path of legal moves. The path's costs add up to the node's `g` and its actions are the node's parent-chain plan |
| `AStarProperties.GNonNegative` | Assets/Scripts/AStarSearch.cs:58 | with non-negative step costs every node's `g` is non-negative and at least its parent's |
| `AStarProperties.StepRelPreservesInv` | Assets/Scripts/AStarSearch.cs:31-74 | every possible outcome of one step keeps the driver invariant, whichever node of least `f` the queue returned |
| `AStarProperties.StepRunIsRun` | Assets/Scripts/AStarSearch.cs:31-74 | repeating `Step` from the fresh driver gives a run, so facts about every run hold of it |
| `AStarProperties.RunInv` | Assets/Scripts/AStarSearch.cs:31-74 | at every point of every run, whatever the tie-break, the driver invariant holds |
| `AStarProperties.StepRelClosedGrows` | Assets/Scripts/AStarSearch.cs:43 | one step never removes a state from the closed set |
| `AStarProperties.RunClosedGrows` | Assets/Scripts/AStarSearch.cs:16-43 | along every run, a state closed at position `j` is still closed at every later position |
| `AStarProperties.SolutionIsPlan` | Assets/Scripts/AStarSearch.cs:47-50 | any solution recorded at any point of any run is a goal state reached from the start by legal moves, with cost `g` and the node's plan as its actions |
| `AStarProperties.ZeroHeuristics` | Assets/Scripts/AStarSearch.cs:231-233 | the estimate that ignores the state. Its contracts are `ZeroKeyIsCost` and `UniformCost` |
| `AStarProperties.ZeroKeyIsCost` | Assets/Scripts/AStarSearch.cs:231-233 | under the zero estimate a well-formed node has `h = 0`, so its key `f` is its path cost `g` |
| `AStarProperties.UniformCost` | Assets/Scripts/AStarSearch.cs:42 | with the zero estimate, at every point of every run each queued node has `f = g`, and a node may be dequeued exactly when it is queued and no queued node has a smaller `g`: the search is uniform-cost search |
| `AStarProperties.GoalAtStart` | Assets/Scripts/AStarSearch.cs:24-50 | when the start state is a goal, every possible first step records the start node as the solution, finishes, empties the queue, and the plan is empty |
| `AStarProperties.DeadEnd` | Assets/Scripts/AStarSearch.cs:37-73 | when the start state is not a goal and has no moves, every first step empties the queue and closes only the start state, and every second step finishes without a solution |
| `AStarProperties.ClosedStateExpandedAgain` | Assets/Scripts/AStarSearch.cs:42-65 | a dequeued node whose state is already closed is still expanded, and its successors that are not closed are enqueued again |
| `Sokoban.ActiveStepEstimates` | Assets/Scripts/AStarSearch.cs:56-64 | every node any possible step newly enqueues carries variant D of its state as `h`, which is non-negative and is 1000 for a state with no crates |
| `ReExpansion.StepFromIsStep` | Assets/Scripts/AStarSearch.cs:42-67 | dequeuing a node of least `f` and finishing the step as `StepFrom` does is a possible step outcome |
| `ReExpansion.ExpandedTwice` | Assets/Scripts/AStarSearch.cs:42-64 | in a concrete problem searched from the fresh driver with the zero estimate, five steps lead to a point where `Meet` is closed while a dearer node for it is still queued; the fifth step dequeues that node, keeps the closed set, and queues `Exit` a second time |

## Left out

- `GetHeuristicsB` is not modelled. It uses `Vector2.Distance`, a Euclidean
  distance with a floating-point square root.
- **Floating point.** Coordinates, costs and `f`/`g`/`h` are floats in the
  source. The model uses integers: Sokoban coordinates are whole numbers, and
  sums of small whole floats are exact.
- **Step costs.** They come from the problem model, which is not part of
  this model. `AStarProperties.GNonNegative` proves `g >= 0` only when every
  step cost is non-negative (`NonNegativeCosts`).
- **Unity plumbing.**
  - `GameObject.Find("Map").GetComponent<Map>()` in `Start` is not modelled.
    The problem and the goal list are parameters instead.
  - The `Debug.LogWarning` call in `GetHeuristicsD` is not modelled. It is
    output only.
  - The host frame loop that calls `Step` is not modelled. A run
    (`AStarProperties.IsRun`), any finite sequence of step outcomes from
    the fresh driver, stands in for it.
- **Collaborators whose source is absent.** `PriorityQueue`, `SearchNode`,
  `SokobanState`, `Successor`, `Map`, the problem model and the
  `SearchAlgorithm` base class are not part of this model.
  - They are modelled abstractly: a multiset with extract-min, a node record,
    a player/crates record, a successor record, and function-valued goal and
    successor parameters.
  - The two-argument `SearchNode(state, 0)` is taken to give `h = 0`.
  - The base class is taken to start with `running` set and `finished`
    clear.
  - Reconstructing the solution path is modelled by `Plan`.
- `simpleDeadlocksHash` is not modelled. It is declared and never used.
- **Nodes built for closed successors.** The source builds a node and
  computes its estimate for every successor, including closed ones, and then
  discards the node. The model builds only the nodes it enqueues. The two
  behave the same apart from the log output.
- **Unproved properties.** These are not modelled:
  - that every run terminates within a bound (as `ClosedStateExpandedAgain`
    shows, a state can be expanded more than once, so the bound does not
    follow from the number of states);
  - optimality with the zero estimate;
  - optimality of variant D, which is not admissible.
- **State equality.** The closed set is a `set` of states, so a state is
  closed when an equal value is in it. For Sokoban states that is equality
  of the player position and of the crate positions in sequence order. The
  source's `HashSet<object>` (AStarSearch.cs:16, 43, 61) compares states
  with `SokobanState.Equals` and `GetHashCode`. `SokobanState` is not part
  of this model, so which successors count as closed may differ, for example
  when two states list the same crates in a different order.
- AStar.Dequeue: does not model the queue's own tie-break order. A dequeue
  returns some node of least `f`, a fixed but unspecified choice, because the
  queue's source is not available. `StepRel` and the run lemmas do not
  depend on this choice: they hold for any node of least `f`.
