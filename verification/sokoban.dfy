/** The search as the Sokoban level runs it: states are a player position
    and the crate positions, and the estimate wired into expansion is
    variant D of the heuristics, evaluated against the level's goals.
 */
module Sokoban {
  import opened Heuristics
  import opened AStar

  /** A puzzle state: where the player stands and where the crates are. */
  datatype SokobanState = SokobanState(player: Pos, crates: seq<Pos>)

  /** The estimate the search gives every enqueued node. */
  function ActiveEstimate(goals: seq<Pos>): SokobanState -> int
  {
    (s: SokobanState) => HeuristicsD(s.player, s.crates, goals)
  }

  /** Every node a Sokoban step newly enqueues carries variant D of its
      state as `h`, which is never negative and is `Far` for a state with
      no crates, whichever least node the step dequeued. */
  lemma ActiveStepEstimates<A>(p: Problem<SokobanState, A>, goals: seq<Pos>, d: Driver<SokobanState, A>,
                               r: Driver<SokobanState, A>)
    requires StepRel(p, ActiveEstimate(goals), d, r)
    ensures forall n :: n in r.open - d.open ==>
      && n.h == HeuristicsD(n.state.player, n.state.crates, goals)
      && n.h >= 0
      && (|n.state.crates| == 0 ==> n.h == Far)
  {
    var h := ActiveEstimate(goals);
    if |d.open| > 0 {
      var cur :| cur in d.open && IsMinimal(cur, d.open) && Expands(p, h, d, cur, r);
      var rest := d.open - multiset{cur};
      forall n | n in r.open - d.open
        ensures n.h == HeuristicsD(n.state.player, n.state.crates, goals)
      {
        assert n in r.open - rest;
      }
    }
  }
}
