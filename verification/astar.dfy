/** The best-first (A*-style) search driver.

    The driver owns an open queue of search nodes ordered by `f = g + h`, a
    closed set of states already taken from the queue, a solution slot and
    the two flags `finished` and `running`. One `Step` takes a node of least
    `f` from the queue, closes its state and either records it as the
    solution or enqueues its successors whose states are not closed.

    The problem (start state, goal test, successor generator) and the
    estimate `h` are parameters, so the state type `S` and the action type
    `A` stay abstract. The queue is a multiset: extract-min returns some
    node of least `f`, without saying which one when several tie.
 */
module AStar {
  import opened Options

  /** One move out of a state: the state reached, the move's label and its
      cost. */
  datatype Successor<S, A> = Successor(state: S, action: A, cost: int)

  /** The search problem the driver consults. */
  datatype Problem<!S, A> = Problem(
    start: S,
    isGoal: S -> bool,
    successors: S -> seq<Successor<S, A>>)

  /** A search node: the state, the cost `g` of the path that reached it,
      the estimate `h` of the remaining cost, the move that produced it and
      the node it was expanded from. A datatype value is finite, so a parent
      chain always ends at a node without a parent. */
  datatype Node<S, A> = Node(
    state: S,
    g: int,
    h: int,
    action: Option<A>,
    parent: Option<Node<S, A>>)
  {
    /** The priority key. */
    function F(): int
    {
      g + h
    }
  }

  /** Everything one search instance keeps between two steps. */
  datatype Driver<S(==), A(==)> = Driver(
    open: multiset<Node<S, A>>,
    closed: set<S>,
    solution: Option<Node<S, A>>,
    finished: bool,
    running: bool)

  // ---------------------------------------------------------------------
  // Start
  // ---------------------------------------------------------------------

  /** The node built for the start state: cost zero, no parent, no move. */
  function StartNode<S, A>(p: Problem<S, A>): Node<S, A>
  {
    Node(p.start, 0, 0, None, None)
  }

  /** A fresh driver: the open queue holds just the start node, nothing is
      closed, no solution, running. */
  function Init<S(==), A(==)>(p: Problem<S, A>): (d: Driver<S, A>)
    ensures |d.open| == 1 && StartNode(p) in d.open
    ensures forall n :: n in d.open ==> n.g == 0 && n.parent == None && n.state == p.start
    ensures d.closed == {} && d.solution == None
    ensures d.running && !d.finished
  {
    Driver(multiset{StartNode(p)}, {}, None, false, true)
  }

  // ---------------------------------------------------------------------
  // The priority queue's extract-min
  // ---------------------------------------------------------------------

  /** `n` is in `open` and no node of `open` has a smaller key. */
  ghost predicate IsMinimal<S, A>(n: Node<S, A>, open: multiset<Node<S, A>>)
  {
    n in open && forall m :: m in open ==> n.F() <= m.F()
  }

  /** A non-empty queue has a node of least key. */
  lemma MinimalExists<S, A>(open: multiset<Node<S, A>>)
    requires |open| > 0
    ensures exists n :: IsMinimal(n, open)
    decreases |open|
  {
    var x :| x in open;
    var rest := open - multiset{x};
    if |rest| == 0 {
      assert open == rest + multiset{x};
      assert IsMinimal(x, open);
    } else {
      MinimalExists(rest);
      var y :| IsMinimal(y, rest);
      if x.F() < y.F() {
        assert IsMinimal(x, open);
      } else {
        assert IsMinimal(y, open);
      }
    }
  }

  /** The node a dequeue returns: one of least key, ties broken by a fixed
      but unspecified choice. */
  ghost function Dequeue<S, A>(open: multiset<Node<S, A>>): (cur: Node<S, A>)
    requires |open| > 0
    ensures IsMinimal(cur, open)
  {
    MinimalExists(open);
    var n :| IsMinimal(n, open);
    n
  }

  // ---------------------------------------------------------------------
  // Expansion
  // ---------------------------------------------------------------------

  /** The node built for successor `suc` of `cur`. */
  function Child<S, A>(cur: Node<S, A>, suc: Successor<S, A>, h: S -> int): Node<S, A>
  {
    Node(suc.state, suc.cost + cur.g, h(suc.state), Some(suc.action), Some(cur))
  }

  /** The positions in `succs` of successors whose state is not closed. */
  ghost function OpenIndices<S, A>(succs: seq<Successor<S, A>>, closed: set<S>): set<int>
  {
    set i | 0 <= i < |succs| && succs[i].state !in closed
  }

  lemma OpenIndicesSnoc<S, A>(succs: seq<Successor<S, A>>, closed: set<S>)
    requires |succs| > 0
    ensures var n := |succs| - 1;
      |OpenIndices(succs, closed)| ==
        |OpenIndices(succs[..n], closed)| + (if succs[n].state in closed then 0 else 1)
  {
    var n := |succs| - 1;
    var pre := OpenIndices(succs[..n], closed);
    if succs[n].state in closed {
      assert OpenIndices(succs, closed) == pre;
    } else {
      assert OpenIndices(succs, closed) == pre + {n};
    }
  }

  /** The positions in `succs` of successors whose state is not closed and
      whose child of `cur` is `n`. */
  ghost function ChildIndices<S, A>(cur: Node<S, A>, succs: seq<Successor<S, A>>, closed: set<S>, h: S -> int, n: Node<S, A>)
    : set<int>
  {
    set i | 0 <= i < |succs| && succs[i].state !in closed && Child(cur, succs[i], h) == n
  }

  lemma ChildIndicesSnoc<S, A>(cur: Node<S, A>, succs: seq<Successor<S, A>>, closed: set<S>, h: S -> int, n: Node<S, A>)
    requires |succs| > 0
    ensures var k := |succs| - 1;
      |ChildIndices(cur, succs, closed, h, n)| ==
        |ChildIndices(cur, succs[..k], closed, h, n)|
          + (if succs[k].state !in closed && Child(cur, succs[k], h) == n then 1 else 0)
  {
    var k := |succs| - 1;
    var pre := ChildIndices(cur, succs[..k], closed, h, n);
    if succs[k].state !in closed && Child(cur, succs[k], h) == n {
      assert ChildIndices(cur, succs, closed, h, n) == pre + {k};
    } else {
      assert ChildIndices(cur, succs, closed, h, n) == pre;
    }
  }

  /** The nodes enqueued when `cur` is expanded: one per successor whose
      state is not closed, in the order of `succs`. */
  function Expand<S(==), A>(cur: Node<S, A>, succs: seq<Successor<S, A>>, closed: set<S>, h: S -> int)
    : (r: seq<Node<S, A>>)
    ensures forall k :: 0 <= k < |r| ==>
      r[k].state !in closed && exists i :: 0 <= i < |succs| && r[k] == Child(cur, succs[i], h)
    ensures forall i {:trigger i in OpenIndices(succs, closed)} | i in OpenIndices(succs, closed) ::
      Child(cur, succs[i], h) in r
    ensures |r| == |OpenIndices(succs, closed)|
    decreases |succs|
  {
    if |succs| == 0 then []
    else
      var n := |succs| - 1;
      var pre := Expand(cur, succs[..n], closed, h);
      OpenIndicesSnoc(succs, closed);
      assert forall k :: 0 <= k < |pre| ==> exists i :: 0 <= i < |succs| && pre[k] == Child(cur, succs[i], h) by {
        forall k | 0 <= k < |pre| ensures exists i :: 0 <= i < |succs| && pre[k] == Child(cur, succs[i], h) {
          var i :| 0 <= i < n && pre[k] == Child(cur, succs[..n][i], h);
          assert succs[..n][i] == succs[i];
        }
      }
      assert forall i :: 0 <= i < n && succs[i].state !in closed ==> Child(cur, succs[i], h) in pre by {
        forall i | 0 <= i < n && succs[i].state !in closed ensures Child(cur, succs[i], h) in pre {
          assert succs[..n][i] == succs[i];
          assert i in OpenIndices(succs[..n], closed);
        }
      }
      if succs[n].state in closed then pre else pre + [Child(cur, succs[n], h)]
  }

  /** Expansion enqueues every node exactly as many times as there are
      successors, not closed, that it is the child of. */
  lemma {:induction false} ExpandCounts<S, A>(cur: Node<S, A>, succs: seq<Successor<S, A>>, closed: set<S>, h: S -> int)
    ensures forall n :: multiset(Expand(cur, succs, closed, h))[n] == |ChildIndices(cur, succs, closed, h, n)|
    decreases |succs|
  {
    if |succs| > 0 {
      var k := |succs| - 1;
      ExpandCounts(cur, succs[..k], closed, h);
      forall n ensures multiset(Expand(cur, succs, closed, h))[n] == |ChildIndices(cur, succs, closed, h, n)| {
        ChildIndicesSnoc(cur, succs, closed, h, n);
      }
    }
  }

  // ---------------------------------------------------------------------
  // One step
  // ---------------------------------------------------------------------

  /** `added` is what expanding `cur` enqueues: every node in it is a child
      of `cur` for a successor whose state is not closed, carrying the
      successor's cost and move and the estimate of its state; every such
      child is in it, as many times as successors produce it; and it holds
      one node per successor not closed. */
  ghost predicate Adds<S, A>(cur: Node<S, A>, succs: seq<Successor<S, A>>, closed: set<S>, h: S -> int,
                             added: multiset<Node<S, A>>)
  {
    && |added| == |OpenIndices(succs, closed)|
    && (forall n :: n in added ==>
          && n.parent == Some(cur)
          && n.state !in closed
          && n.h == h(n.state)
          && exists i :: 0 <= i < |succs| && n.state == succs[i].state
               && n.action == Some(succs[i].action) && n.g == cur.g + succs[i].cost)
    && (forall i {:trigger i in OpenIndices(succs, closed)} | i in OpenIndices(succs, closed) ::
          Child(cur, succs[i], h) in added)
    && (forall n | n in added :: added[n] == |ChildIndices(cur, succs, closed, h, n)|)
  }

  /** The nodes of `Expand` are exactly what expanding `cur` enqueues. */
  lemma ExpandAdds<S, A>(cur: Node<S, A>, succs: seq<Successor<S, A>>, closed: set<S>, h: S -> int)
    ensures Adds(cur, succs, closed, h, multiset(Expand(cur, succs, closed, h)))
  {
    ExpandCounts(cur, succs, closed, h);
    ExpandShapes(cur, succs, closed, h);
  }

  lemma ExpandShapes<S, A>(cur: Node<S, A>, succs: seq<Successor<S, A>>, closed: set<S>, h: S -> int)
    ensures forall n | n in multiset(Expand(cur, succs, closed, h)) ::
      && n.parent == Some(cur) && n.state !in closed && n.h == h(n.state)
      && exists i :: 0 <= i < |succs| && n.state == succs[i].state
           && n.action == Some(succs[i].action) && n.g == cur.g + succs[i].cost
  {
    var kids := Expand(cur, succs, closed, h);
    forall n: Node<S, A> | n in multiset(kids)
      ensures n.parent == Some(cur) && n.state !in closed && n.h == h(n.state)
      ensures exists i :: 0 <= i < |succs| && n.state == succs[i].state
               && n.action == Some(succs[i].action) && n.g == cur.g + succs[i].cost
    {
      var k :| 0 <= k < |kids| && kids[k] == n;
      var i :| 0 <= i < |succs| && kids[k] == Child(cur, succs[i], h);
    }
  }

  /** What a step does after dequeuing `cur` from `d.open`: `cur.state` is
      closed; a goal becomes the solution and stops the search; otherwise
      what expanding `cur` enqueues (the closed set already holding
      `cur.state`) is added to the rest of the queue. */
  ghost predicate Expands<S, A>(p: Problem<S, A>, h: S -> int, d: Driver<S, A>, cur: Node<S, A>, r: Driver<S, A>)
  {
    var rest := d.open - multiset{cur};
    var succs := p.successors(cur.state);
    && r.closed == d.closed + {cur.state}
    && (p.isGoal(cur.state) ==>
         && r.open == rest
         && r.solution == Some(cur)
         && r.finished && !r.running)
    && (!p.isGoal(cur.state) ==>
         && rest <= r.open
         && |r.open| == |d.open| - 1 + |OpenIndices(succs, r.closed)|
         && Adds(cur, succs, r.closed, h, r.open - rest)
         && r.solution == d.solution
         && r.finished == d.finished && r.running == d.running)
  }

  /** The rest of a step once the queue has returned `cur`: close its
      state, then stop at a goal or enqueue the children of `cur`. */
  function StepFrom<S(==), A(==)>(p: Problem<S, A>, h: S -> int, d: Driver<S, A>, cur: Node<S, A>): Driver<S, A>
  {
    var rest := d.open - multiset{cur};
    var closed := d.closed + {cur.state};
    if p.isGoal(cur.state) then
      Driver(rest, closed, Some(cur), true, false)
    else
      Driver(rest + multiset(Expand(cur, p.successors(cur.state), closed, h)),
             closed, d.solution, d.finished, d.running)
  }

  lemma StepFromExpands<S, A>(p: Problem<S, A>, h: S -> int, d: Driver<S, A>, cur: Node<S, A>)
    requires cur in d.open
    ensures Expands(p, h, d, cur, StepFrom(p, h, d, cur))
  {
    var r := StepFrom(p, h, d, cur);
    var rest := d.open - multiset{cur};
    if !p.isGoal(cur.state) {
      var succs := p.successors(cur.state);
      var kids := Expand(cur, succs, r.closed, h);
      assert r.open - rest == multiset(kids);
      ExpandAdds(cur, succs, r.closed, h);
      assert |rest| == |d.open| - 1 by {
        assert d.open == rest + multiset{cur};
      }
    }
  }

  /** One call of the search step. On an empty queue the search finishes
      without a solution and nothing else changes; otherwise a node of least
      key is dequeued and handled as `Expands` describes. The closed set only
      grows. */
  ghost function Step<S(!new), A(!new)>(p: Problem<S, A>, h: S -> int, d: Driver<S, A>): (r: Driver<S, A>)
    ensures d.closed <= r.closed
    ensures |d.open| == 0 ==> r == d.(finished := true, running := false)
    ensures |d.open| > 0 ==> exists cur :: IsMinimal(cur, d.open) && Expands(p, h, d, cur, r)
  {
    if |d.open| == 0 then
      d.(finished := true, running := false)
    else
      var cur := Dequeue(d.open);
      StepFromExpands(p, h, d, cur);
      StepFrom(p, h, d, cur)
  }

  /** `r` is a possible outcome of one step from `d` for a queue that
      returns any node of least key: on an empty queue the search finishes,
      otherwise some least node is handled as `Expands` describes. Unlike
      `Step`, this leaves the tie-break among equal keys entirely open. */
  ghost predicate StepRel<S, A>(p: Problem<S, A>, h: S -> int, d: Driver<S, A>, r: Driver<S, A>)
  {
    || (|d.open| == 0 && r == d.(finished := true, running := false))
    || (|d.open| > 0 && exists cur | cur in d.open :: IsMinimal(cur, d.open) && Expands(p, h, d, cur, r))
  }

  /** Names the node a step on a non-empty queue dequeued. */
  lemma StepDequeued<S(!new), A(!new)>(p: Problem<S, A>, h: S -> int, d: Driver<S, A>)
    returns (cur: Node<S, A>)
    requires |d.open| > 0
    ensures IsMinimal(cur, d.open) && Expands(p, h, d, cur, Step(p, h, d))
  {
    cur := Dequeue(d.open);
    StepFromExpands(p, h, d, cur);
  }
}
