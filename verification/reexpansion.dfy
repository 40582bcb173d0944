/** A concrete search in which the step expands a state a second time.

    Five places, no goal, the zero estimate. From `Start` one move leads to
    `P` (cost 1) and one to `Q` (cost 2); both lead on to `Meet`, from `P`
    at cost 5 and from `Q` at cost 1; from `Meet` one move of cost 10 leads
    to `Exit`. `Meet` is queued twice, at cost 6 through `P` and at cost 3
    through `Q`. The cheaper copy is expanded first and closes `Meet`; the
    dearer copy is still queued, and when it comes out it is expanded again
    and `Exit` is queued a second time.
 */
module ReExpansion {
  import opened Options
  import opened AStar
  import opened AStarProperties

  datatype Spot = Start | P | Q | Meet | Exit

  /** The moves of the example, labelled 0 to 4. */
  function Moves(s: Spot): seq<Successor<Spot, int>>
  {
    match s
    case Start => [Successor(P, 0, 1), Successor(Q, 1, 2)]
    case P => [Successor(Meet, 2, 5)]
    case Q => [Successor(Meet, 3, 1)]
    case Meet => [Successor(Exit, 4, 10)]
    case Exit => []
  }

  function NoGoal(s: Spot): bool
  {
    false
  }

  function Example(): Problem<Spot, int>
  {
    Problem(Start, NoGoal, Moves)
  }

  /** Dequeuing a least node and finishing the step as `StepFrom` does is
      a possible step outcome. */
  lemma StepFromIsStep<S, A>(p: Problem<S, A>, h: S -> int, d: Driver<S, A>, cur: Node<S, A>)
    requires cur in d.open
    requires forall m :: m in d.open ==> cur.F() <= m.F()
    ensures StepRel(p, h, d, StepFrom(p, h, d, cur))
  {
    StepFromExpands(p, h, d, cur);
    assert IsMinimal(cur, d.open);
  }

  // The nodes of the run, and the driver after each step.
  function N0(): Node<Spot, int> { Node(Start, 0, 0, None, None) }
  function NP(): Node<Spot, int> { Node(P, 1, 0, Some(0), Some(N0())) }
  function NQ(): Node<Spot, int> { Node(Q, 2, 0, Some(1), Some(N0())) }
  function NMeetViaP(): Node<Spot, int> { Node(Meet, 6, 0, Some(2), Some(NP())) }
  function NMeetViaQ(): Node<Spot, int> { Node(Meet, 3, 0, Some(3), Some(NQ())) }
  function NExitFirst(): Node<Spot, int> { Node(Exit, 13, 0, Some(4), Some(NMeetViaQ())) }
  function NExitAgain(): Node<Spot, int> { Node(Exit, 16, 0, Some(4), Some(NMeetViaP())) }

  function D1(): Driver<Spot, int> { Driver(multiset{NP(), NQ()}, {Start}, None, false, true) }
  function D2(): Driver<Spot, int> { Driver(multiset{NQ(), NMeetViaP()}, {Start, P}, None, false, true) }
  function D3(): Driver<Spot, int> { Driver(multiset{NMeetViaP(), NMeetViaQ()}, {Start, P, Q}, None, false, true) }
  function D4(): Driver<Spot, int> { Driver(multiset{NMeetViaP(), NExitFirst()}, {Start, P, Q, Meet}, None, false, true) }
  function D5(): Driver<Spot, int> { Driver(multiset{NExitFirst(), NExitAgain()}, {Start, P, Q, Meet}, None, false, true) }

  /** The queue holds `cur` and nothing with a smaller key. */
  predicate Least(cur: Node<Spot, int>, d: Driver<Spot, int>)
  {
    cur in d.open && forall m :: m in d.open ==> cur.F() <= m.F()
  }

  /** Drivers that agree field by field are equal. */
  lemma DriverEq<S, A>(a: Driver<S, A>, b: Driver<S, A>)
    requires a.open == b.open && a.closed == b.closed && a.solution == b.solution
    requires a.finished == b.finished && a.running == b.running
    ensures a == b
  {
  }

  lemma Kids1()
    ensures Expand(N0(), Example().successors(Start), Init(Example()).closed + {Start}, ZeroHeuristics) == [NP(), NQ()]
  {
    assert Example().successors(Start) == [Successor(P, 0, 1), Successor(Q, 1, 2)];
    assert Init(Example()).closed + {Start} == D1().closed;
    assert [Successor(P, 0, 1), Successor(Q, 1, 2)][..1] == [Successor(P, 0, 1)];
    assert Expand(N0(), [Successor(P, 0, 1)], {Start}, ZeroHeuristics) == [NP()];
  }

  lemma Least1()
    ensures Least(N0(), Init(Example()))
  {
  }

  lemma Rest1()
    ensures Init(Example()).open - multiset{N0()} == multiset{}
  {
  }

  lemma Sum1()
    ensures multiset{} + multiset([NP(), NQ()]) == D1().open
  {
  }

  lemma Step1Open()
    ensures StepFrom(Example(), ZeroHeuristics, Init(Example()), N0()).open == D1().open
  {
    Kids1();
    Rest1();
    Sum1();
  }

  lemma Step1From()
    ensures StepFrom(Example(), ZeroHeuristics, Init(Example()), N0()) == D1()
  {
    Step1Open();
    assert StepFrom(Example(), ZeroHeuristics, Init(Example()), N0()).closed == D1().closed by {
      assert Init(Example()).closed + {Start} == D1().closed;
    }
    DriverEq(StepFrom(Example(), ZeroHeuristics, Init(Example()), N0()), D1());
  }

  lemma Kids2()
    ensures Expand(NP(), Example().successors(P), D1().closed + {P}, ZeroHeuristics) == [NMeetViaP()]
  {
    assert Example().successors(P) == [Successor(Meet, 2, 5)];
    assert D1().closed + {P} == D2().closed;
  }

  lemma Least2()
    ensures Least(NP(), D1())
  {
  }

  lemma Rest2()
    ensures D1().open - multiset{NP()} == multiset{NQ()}
  {
  }

  lemma Sum2()
    ensures multiset{NQ()} + multiset([NMeetViaP()]) == D2().open
  {
  }

  lemma Step2Open()
    ensures StepFrom(Example(), ZeroHeuristics, D1(), NP()).open == D2().open
  {
    Kids2();
    Rest2();
    Sum2();
  }

  lemma Step2From()
    ensures StepFrom(Example(), ZeroHeuristics, D1(), NP()) == D2()
  {
    Step2Open();
    assert StepFrom(Example(), ZeroHeuristics, D1(), NP()).closed == D2().closed by {
      assert D1().closed + {P} == D2().closed;
    }
    DriverEq(StepFrom(Example(), ZeroHeuristics, D1(), NP()), D2());
  }

  lemma Kids3()
    ensures Expand(NQ(), Example().successors(Q), D2().closed + {Q}, ZeroHeuristics) == [NMeetViaQ()]
  {
    assert Example().successors(Q) == [Successor(Meet, 3, 1)];
    assert D2().closed + {Q} == D3().closed;
  }

  lemma Least3()
    ensures Least(NQ(), D2())
  {
  }

  lemma Rest3()
    ensures D2().open - multiset{NQ()} == multiset{NMeetViaP()}
  {
  }

  lemma Sum3()
    ensures multiset{NMeetViaP()} + multiset([NMeetViaQ()]) == D3().open
  {
  }

  lemma Step3Open()
    ensures StepFrom(Example(), ZeroHeuristics, D2(), NQ()).open == D3().open
  {
    Kids3();
    Rest3();
    Sum3();
  }

  lemma Step3From()
    ensures StepFrom(Example(), ZeroHeuristics, D2(), NQ()) == D3()
  {
    Step3Open();
    assert StepFrom(Example(), ZeroHeuristics, D2(), NQ()).closed == D3().closed by {
      assert D2().closed + {Q} == D3().closed;
    }
    DriverEq(StepFrom(Example(), ZeroHeuristics, D2(), NQ()), D3());
  }

  lemma Kids4()
    ensures Expand(NMeetViaQ(), Example().successors(Meet), D3().closed + {Meet}, ZeroHeuristics) == [NExitFirst()]
  {
    assert Example().successors(Meet) == [Successor(Exit, 4, 10)];
    assert D3().closed + {Meet} == D4().closed;
  }

  lemma Least4()
    ensures Least(NMeetViaQ(), D3())
  {
  }

  lemma Rest4()
    ensures D3().open - multiset{NMeetViaQ()} == multiset{NMeetViaP()}
  {
  }

  lemma Sum4()
    ensures multiset{NMeetViaP()} + multiset([NExitFirst()]) == D4().open
  {
  }

  lemma Step4Open()
    ensures StepFrom(Example(), ZeroHeuristics, D3(), NMeetViaQ()).open == D4().open
  {
    Kids4();
    Rest4();
    Sum4();
  }

  lemma Step4From()
    ensures StepFrom(Example(), ZeroHeuristics, D3(), NMeetViaQ()) == D4()
  {
    Step4Open();
    assert StepFrom(Example(), ZeroHeuristics, D3(), NMeetViaQ()).closed == D4().closed by {
      assert D3().closed + {Meet} == D4().closed;
    }
    DriverEq(StepFrom(Example(), ZeroHeuristics, D3(), NMeetViaQ()), D4());
  }

  lemma Kids5()
    ensures Expand(NMeetViaP(), Example().successors(Meet), D4().closed + {Meet}, ZeroHeuristics) == [NExitAgain()]
  {
    assert Example().successors(Meet) == [Successor(Exit, 4, 10)];
    assert D4().closed + {Meet} == D5().closed;
  }

  lemma Least5()
    ensures Least(NMeetViaP(), D4())
  {
  }

  lemma Rest5()
    ensures D4().open - multiset{NMeetViaP()} == multiset{NExitFirst()}
  {
  }

  lemma Sum5()
    ensures multiset{NExitFirst()} + multiset([NExitAgain()]) == D5().open
  {
  }

  lemma Step5Open()
    ensures StepFrom(Example(), ZeroHeuristics, D4(), NMeetViaP()).open == D5().open
  {
    Kids5();
    Rest5();
    Sum5();
  }

  lemma Step5From()
    ensures StepFrom(Example(), ZeroHeuristics, D4(), NMeetViaP()) == D5()
  {
    Step5Open();
    assert StepFrom(Example(), ZeroHeuristics, D4(), NMeetViaP()).closed == D5().closed by {
      assert D4().closed + {Meet} == D5().closed;
    }
    DriverEq(StepFrom(Example(), ZeroHeuristics, D4(), NMeetViaP()), D5());
  }

  lemma Step1()
    ensures StepRel(Example(), ZeroHeuristics, Init(Example()), D1())
  {
    Least1();
    Step1From();
    StepFromIsStep(Example(), ZeroHeuristics, Init(Example()), N0());
  }

  lemma Step2()
    ensures StepRel(Example(), ZeroHeuristics, D1(), D2())
  {
    Least2();
    Step2From();
    StepFromIsStep(Example(), ZeroHeuristics, D1(), NP());
  }

  lemma Step3()
    ensures StepRel(Example(), ZeroHeuristics, D2(), D3())
  {
    Least3();
    Step3From();
    StepFromIsStep(Example(), ZeroHeuristics, D2(), NQ());
  }

  lemma Step4()
    ensures StepRel(Example(), ZeroHeuristics, D3(), D4())
  {
    Least4();
    Step4From();
    StepFromIsStep(Example(), ZeroHeuristics, D3(), NMeetViaQ());
  }

  lemma Step5()
    ensures StepRel(Example(), ZeroHeuristics, D4(), D5())
  {
    Least5();
    Step5From();
    StepFromIsStep(Example(), ZeroHeuristics, D4(), NMeetViaP());
  }

  /** The run of the example, from the fresh driver through five steps:
      after four steps `Meet` is closed while its dearer node is still
      queued; the fifth step dequeues that node, leaves the closed set as
      it was, and expands it again, so the queue then holds two nodes for
      `Exit`. */
  lemma ExpandedTwice()
    ensures StepRel(Example(), ZeroHeuristics, Init(Example()), D1())
    ensures StepRel(Example(), ZeroHeuristics, D1(), D2())
    ensures StepRel(Example(), ZeroHeuristics, D2(), D3())
    ensures StepRel(Example(), ZeroHeuristics, D3(), D4())
    ensures StepRel(Example(), ZeroHeuristics, D4(), D5())
    ensures Meet in D4().closed && NMeetViaP() in D4().open && NMeetViaP().state == Meet
    ensures D5().closed == D4().closed
    ensures |D5().open| == 2 && forall n :: n in D5().open ==> n.state == Exit
  {
    Step1();
    Step2();
    Step3();
    Step4();
    Step5();
    MeetQueued();
    BothExits();
  }

  lemma MeetQueued()
    ensures Meet in D4().closed && NMeetViaP() in D4().open && NMeetViaP().state == Meet
    ensures D5().closed == D4().closed
  {
  }

  lemma BothExits()
    ensures |D5().open| == 2 && forall n :: n in D5().open ==> n.state == Exit
  {
    forall n | n in D5().open
      ensures n.state == Exit
    {
      assert n == NExitFirst() || n == NExitAgain();
    }
  }
}
