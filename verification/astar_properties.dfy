/** Properties of the search driver over whole runs: every node is reached
    from the start by a real path of the problem whose cost is the node's
    `g`, the reported solution is such a path ending at a goal, the closed
    set only grows, and the two end scenarios of the search.
 */
module AStarProperties {
  import opened Options
  import opened AStar

  // ---------------------------------------------------------------------
  // Paths of the problem
  // ---------------------------------------------------------------------

  /** The state reached by following `trace` from `from`. */
  function End<S, A>(from: S, trace: seq<Successor<S, A>>): S
  {
    if |trace| == 0 then from else trace[|trace| - 1].state
  }

  /** Every move of `trace` is one the problem offers from the state the
      previous moves reached, starting at `from`. */
  ghost predicate IsPath<S, A>(p: Problem<S, A>, from: S, trace: seq<Successor<S, A>>)
    decreases |trace|
  {
    |trace| == 0 ||
    (var pre := trace[..|trace| - 1];
     IsPath(p, from, pre) && trace[|trace| - 1] in p.successors(End(from, pre)))
  }

  /** The moves' costs, added up. */
  function Cost<S, A>(trace: seq<Successor<S, A>>): int
    decreases |trace|
  {
    if |trace| == 0 then 0 else Cost(trace[..|trace| - 1]) + trace[|trace| - 1].cost
  }

  /** The moves' labels, in order. */
  function Actions<S, A>(trace: seq<Successor<S, A>>): seq<A>
    decreases |trace|
  {
    if |trace| == 0 then [] else Actions(trace[..|trace| - 1]) + [trace[|trace| - 1].action]
  }

  /** The action sequence a node stands for: the labels met walking its
      parent chain back to the start, in forward order. */
  function Plan<S, A>(n: Node<S, A>): seq<A>
    decreases n
  {
    match n.parent
    case None => []
    case Some(q) => Plan(q) + (match n.action case Some(a) => [a] case None => [])
  }

  // ---------------------------------------------------------------------
  // Well-formed nodes and the driver invariant
  // ---------------------------------------------------------------------

  /** `n` is the start node, or a child built for one of the successors of
      a well-formed parent. */
  ghost predicate WellFormed<S, A>(p: Problem<S, A>, h: S -> int, n: Node<S, A>)
    decreases n
  {
    match n.parent
    case None => n == StartNode(p)
    case Some(q) =>
      WellFormed(p, h, q) &&
      exists i :: 0 <= i < |p.successors(q.state)| && n == Child(q, p.successors(q.state)[i], h)
  }

  /** What holds of the driver between steps: every queued node and the
      solution are well-formed, the solution is a goal, `running` is the
      negation of `finished`, and a solution implies `finished`. */
  ghost predicate Inv<S, A>(p: Problem<S, A>, h: S -> int, d: Driver<S, A>)
  {
    && (forall n :: n in d.open ==> WellFormed(p, h, n))
    && (d.solution.Some? ==> WellFormed(p, h, d.solution.value) && p.isGoal(d.solution.value.state))
    && d.running == !d.finished
    && (d.solution.Some? ==> d.finished)
  }

  lemma InitInv<S, A>(p: Problem<S, A>, h: S -> int)
    ensures Inv(p, h, Init(p))
  {
  }

  /** Handling a dequeued node as a step does keeps the invariant. */
  lemma ExpandsPreservesInv<S, A>(p: Problem<S, A>, h: S -> int, d: Driver<S, A>, cur: Node<S, A>, r: Driver<S, A>)
    requires Inv(p, h, d)
    requires cur in d.open
    requires Expands(p, h, d, cur, r)
    ensures Inv(p, h, r)
  {
    var rest := d.open - multiset{cur};
    var succs := p.successors(cur.state);
    assert WellFormed(p, h, cur);
    if !p.isGoal(cur.state) {
      forall n | n in r.open
        ensures WellFormed(p, h, n)
      {
        if n !in rest {
          ChildWellFormed(p, h, d, cur, r, n);
        }
      }
    }
  }

  lemma ChildWellFormed<S, A>(p: Problem<S, A>, h: S -> int, d: Driver<S, A>, cur: Node<S, A>, r: Driver<S, A>, n: Node<S, A>)
    requires WellFormed(p, h, cur)
    requires Expands(p, h, d, cur, r) && !p.isGoal(cur.state)
    requires n in r.open && n !in d.open - multiset{cur}
    ensures WellFormed(p, h, n)
  {
    var succs := p.successors(cur.state);
    assert n in r.open - (d.open - multiset{cur});
    var i :| 0 <= i < |succs| && n.state == succs[i].state
      && n.action == Some(succs[i].action) && n.g == cur.g + succs[i].cost;
    assert n == Child(cur, succs[i], h);
  }

  /** A step keeps the invariant. */
  lemma StepPreservesInv<S(!new), A(!new)>(p: Problem<S, A>, h: S -> int, d: Driver<S, A>)
    requires Inv(p, h, d)
    ensures Inv(p, h, Step(p, h, d))
  {
    if |d.open| > 0 {
      var cur := StepDequeued(p, h, d);
      ExpandsPreservesInv(p, h, d, cur, Step(p, h, d));
    }
  }

  // ---------------------------------------------------------------------
  // Costs along parent chains
  // ---------------------------------------------------------------------

  /** Every well-formed node is reached from the start by a path of the
      problem whose cost is the node's `g` and whose labels are its plan. */
  lemma {:induction false} NodeTrace<S, A>(p: Problem<S, A>, h: S -> int, n: Node<S, A>)
    returns (trace: seq<Successor<S, A>>)
    requires WellFormed(p, h, n)
    ensures IsPath(p, p.start, trace)
    ensures End(p.start, trace) == n.state
    ensures Cost(trace) == n.g
    ensures Actions(trace) == Plan(n)
    decreases n
  {
    match n.parent
    case None =>
      trace := [];
    case Some(q) =>
      var pre := NodeTrace(p, h, q);
      var succs := p.successors(q.state);
      var i :| 0 <= i < |succs| && n == Child(q, succs[i], h);
      trace := pre + [succs[i]];
      assert trace[..|trace| - 1] == pre;
  }

  /** All moves of the problem cost nothing or more. */
  ghost predicate NonNegativeCosts<S(!new), A>(p: Problem<S, A>)
  {
    forall s: S, i :: 0 <= i < |p.successors(s)| ==> p.successors(s)[i].cost >= 0
  }

  /** With non-negative move costs, `g` is never negative and never smaller
      than the parent's `g`. */
  lemma {:induction false} GNonNegative<S(!new), A>(p: Problem<S, A>, h: S -> int, n: Node<S, A>)
    requires NonNegativeCosts(p)
    requires WellFormed(p, h, n)
    ensures n.g >= 0
    ensures n.parent.Some? ==> n.g >= n.parent.value.g
    decreases n
  {
    match n.parent
    case None =>
    case Some(q) =>
      GNonNegative(p, h, q);
      var succs := p.successors(q.state);
      var i :| 0 <= i < |succs| && n == Child(q, succs[i], h);
      assert succs[i].cost >= 0;
  }

  // ---------------------------------------------------------------------
  // Runs
  // ---------------------------------------------------------------------

  /** Any step outcome keeps the invariant, whichever least node the queue
      returned. */
  lemma StepRelPreservesInv<S, A>(p: Problem<S, A>, h: S -> int, d: Driver<S, A>, r: Driver<S, A>)
    requires Inv(p, h, d)
    requires StepRel(p, h, d, r)
    ensures Inv(p, h, r)
  {
    if |d.open| > 0 {
      var cur :| cur in d.open && IsMinimal(cur, d.open) && Expands(p, h, d, cur, r);
      ExpandsPreservesInv(p, h, d, cur, r);
    }
  }

  /** The driver after position `i` of `ds` is a possible outcome of one
      step from the driver at `i`. */
  ghost predicate StepAt<S, A>(p: Problem<S, A>, h: S -> int, ds: seq<Driver<S, A>>, i: int)
  {
    0 <= i < |ds| - 1 && StepRel(p, h, ds[i], ds[i + 1])
  }

  /** `ds` is a run of the search: it starts at a fresh driver and each
      driver is a possible outcome of one step from the one before. */
  ghost predicate IsRun<S, A>(p: Problem<S, A>, h: S -> int, ds: seq<Driver<S, A>>)
  {
    && |ds| > 0
    && ds[0] == Init(p)
    && forall i | 0 <= i < |ds| - 1 :: StepAt(p, h, ds, i)
  }

  /** Repeating the step function is one run. */
  lemma StepRunIsRun<S(!new), A(!new)>(p: Problem<S, A>, h: S -> int, ds: seq<Driver<S, A>>)
    requires |ds| > 0 && ds[0] == Init(p)
    requires forall i :: 0 <= i < |ds| - 1 ==> ds[i + 1] == Step(p, h, ds[i])
    ensures IsRun(p, h, ds)
  {
  }

  /** The invariant holds at every point of every run. */
  lemma {:induction false} RunInv<S, A>(p: Problem<S, A>, h: S -> int, ds: seq<Driver<S, A>>, k: nat)
    requires IsRun(p, h, ds)
    requires k < |ds|
    ensures Inv(p, h, ds[k])
    decreases k
  {
    if k == 0 {
      InitInv(p, h);
    } else {
      RunInv(p, h, ds, k - 1);
      RunStepInv(p, h, ds, k);
    }
  }

  lemma RunStepInv<S, A>(p: Problem<S, A>, h: S -> int, ds: seq<Driver<S, A>>, k: nat)
    requires IsRun(p, h, ds)
    requires 0 < k < |ds|
    requires Inv(p, h, ds[k - 1])
    ensures Inv(p, h, ds[k])
  {
    var d, r := ds[k - 1], ds[k];
    assert StepAt(p, h, ds, k - 1);
    StepRelPreservesInv(p, h, d, r);
  }

  /** A state once closed stays closed for the rest of the run. */
  lemma {:induction false} RunClosedGrows<S, A>(p: Problem<S, A>, h: S -> int, ds: seq<Driver<S, A>>, j: nat, k: nat)
    requires IsRun(p, h, ds)
    requires j <= k < |ds|
    ensures ds[j].closed <= ds[k].closed
    decreases k
  {
    if j < k {
      RunClosedGrows(p, h, ds, j, k - 1);
      RunStepClosed(p, h, ds, k);
    }
  }

  lemma RunStepClosed<S, A>(p: Problem<S, A>, h: S -> int, ds: seq<Driver<S, A>>, k: nat)
    requires IsRun(p, h, ds)
    requires 0 < k < |ds|
    ensures ds[k - 1].closed <= ds[k].closed
  {
    var d, r := ds[k - 1], ds[k];
    assert StepAt(p, h, ds, k - 1);
    StepRelClosedGrows(p, h, d, r);
  }

  /** One step never removes a state from the closed set. */
  lemma StepRelClosedGrows<S, A>(p: Problem<S, A>, h: S -> int, d: Driver<S, A>, r: Driver<S, A>)
    requires StepRel(p, h, d, r)
    ensures d.closed <= r.closed
  {
    if |d.open| > 0 {
      var cur :| cur in d.open && IsMinimal(cur, d.open) && Expands(p, h, d, cur, r);
    }
  }

  /** Whenever a run has recorded a solution, the solution is a goal reached
      from the start by a path of the problem whose cost is its `g` and
      whose labels are its plan. */
  lemma SolutionIsPlan<S, A>(p: Problem<S, A>, h: S -> int, ds: seq<Driver<S, A>>, k: nat)
    returns (trace: seq<Successor<S, A>>)
    requires IsRun(p, h, ds)
    requires k < |ds| && ds[k].solution.Some?
    ensures var sol := ds[k].solution.value;
      && IsPath(p, p.start, trace)
      && p.isGoal(End(p.start, trace))
      && Cost(trace) == sol.g
      && Actions(trace) == Plan(sol)
  {
    RunInv(p, h, ds, k);
    trace := NodeTrace(p, h, ds[k].solution.value);
  }

  // ---------------------------------------------------------------------
  // The zero estimate
  // ---------------------------------------------------------------------

  /** The estimate that ignores the state. */
  function ZeroHeuristics<S>(s: S): int
  {
    0
  }

  /** Under the zero estimate a well-formed node's key is its path cost. */
  lemma ZeroKeyIsCost<S, A>(p: Problem<S, A>, n: Node<S, A>)
    requires WellFormed(p, ZeroHeuristics, n)
    ensures n.h == 0 && n.F() == n.g
  {
    match n.parent
    case None =>
    case Some(q) =>
      var i :| 0 <= i < |p.successors(q.state)| && n == Child(q, p.successors(q.state)[i], ZeroHeuristics);
  }

  /** With the zero estimate the search is uniform-cost search: at every
      point of every run each queued node's key is its cost `g`, so the
      nodes a step may dequeue are exactly the queued nodes of least `g`. */
  lemma UniformCost<S, A>(p: Problem<S, A>, ds: seq<Driver<S, A>>, k: nat)
    requires IsRun(p, ZeroHeuristics, ds)
    requires k < |ds|
    ensures forall n :: n in ds[k].open ==> n.F() == n.g
    ensures forall cur :: IsMinimal(cur, ds[k].open) <==>
      cur in ds[k].open && forall m :: m in ds[k].open ==> cur.g <= m.g
  {
    var open := ds[k].open;
    RunInv(p, ZeroHeuristics, ds, k);
    forall n | n in open
      ensures n.F() == n.g
    {
      ZeroKeyIsCost(p, n);
    }
  }

  // ---------------------------------------------------------------------
  // Scenarios
  // ---------------------------------------------------------------------

  /** When the start state is already a goal, the first step succeeds with
      the start node, whose plan is empty, and leaves the queue empty. */
  lemma GoalAtStart<S, A>(p: Problem<S, A>, h: S -> int, d: Driver<S, A>)
    requires p.isGoal(p.start)
    requires StepRel(p, h, Init(p), d)
    ensures d.solution == Some(StartNode(p)) && d.finished && !d.running
    ensures Plan(d.solution.value) == [] && |d.open| == 0
  {
    var d0 := Init(p);
    var cur :| cur in d0.open && IsMinimal(cur, d0.open) && Expands(p, h, d0, cur, d);
    assert cur == StartNode(p);
    assert d0.open - multiset{cur} == multiset{};
  }

  /** When the start state is not a goal and offers no move, the first step
      empties the queue and the second finishes without a solution. */
  lemma DeadEnd<S, A>(p: Problem<S, A>, h: S -> int, d1: Driver<S, A>, d2: Driver<S, A>)
    requires !p.isGoal(p.start) && |p.successors(p.start)| == 0
    requires StepRel(p, h, Init(p), d1) && StepRel(p, h, d1, d2)
    ensures |d1.open| == 0 && d1.closed == {p.start}
    ensures d2.finished && !d2.running && d2.solution == None
  {
    var d0 := Init(p);
    var cur :| cur in d0.open && IsMinimal(cur, d0.open) && Expands(p, h, d0, cur, d1);
    assert cur == StartNode(p);
    assert |OpenIndices(p.successors(p.start), d1.closed)| == 0;
  }

  /** The step does not skip a dequeued node whose state is already closed:
      such a node is expanded again, the closed set does not change, and its
      successors that are not closed are enqueued once more. */
  lemma ClosedStateExpandedAgain<S, A>(p: Problem<S, A>, h: S -> int, d: Driver<S, A>, n: Node<S, A>)
    requires n in d.open
    requires n.state in d.closed && !p.isGoal(n.state)
    ensures var r := StepFrom(p, h, d, n);
      && r.closed == d.closed
      && forall i :: 0 <= i < |p.successors(n.state)| && p.successors(n.state)[i].state !in d.closed ==>
           Child(n, p.successors(n.state)[i], h) in r.open
  {
    StepFromExpands(p, h, d, n);
    ExpandsAgain(p, h, d, n, StepFrom(p, h, d, n));
  }

  lemma ExpandsAgain<S, A>(p: Problem<S, A>, h: S -> int, d: Driver<S, A>, n: Node<S, A>, r: Driver<S, A>)
    requires n.state in d.closed && !p.isGoal(n.state)
    requires Expands(p, h, d, n, r)
    ensures r.closed == d.closed
    ensures forall i :: 0 <= i < |p.successors(n.state)| && p.successors(n.state)[i].state !in d.closed ==>
      Child(n, p.successors(n.state)[i], h) in r.open
  {
    var succs := p.successors(n.state);
    assert r.closed == d.closed;
    forall i | 0 <= i < |succs| && succs[i].state !in d.closed
      ensures Child(n, succs[i], h) in r.open
    {
      assert i in OpenIndices(succs, r.closed);
    }
  }
}
