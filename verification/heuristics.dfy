/** The integer-grid heuristic evaluators of the Sokoban best-first search.

    A state is judged from the player position, the crate positions and the
    goal positions of the level. Every evaluator is a pure function of those
    three inputs; the pure functions below are the closed-form definitions,
    and the `Compute...` methods follow the source's loops step by step and
    are proved to agree with them.
 */
module Heuristics {

  /** A cell of the grid. The source stores cells as floating-point vectors,
      but on a Sokoban grid both coordinates are whole numbers. */
  datatype Pos = Pos(x: int, y: int)

  /** The starting value of every running minimum: a minimum over an empty
      list of candidates, or over candidates that are all at least this far,
      stays at this value. */
  const Far: nat := 1000

  function Abs(v: int): nat
  {
    if v < 0 then -v else v
  }

  /** |dx| + |dy| between two cells. */
  function Manhattan(a: Pos, b: Pos): nat
  {
    Abs(a.x - b.x) + Abs(a.y - b.y)
  }

  /** No two entries of `s` are equal. */
  ghost predicate Distinct<T>(s: seq<T>)
  {
    forall i, j :: 0 <= i < j < |s| ==> s[i] != s[j]
  }

  /** The set of entries of `s`. */
  ghost function Elems<T>(s: seq<T>): set<T>
  {
    set x | x in s
  }

  // ---------------------------------------------------------------------
  // Nearest-target distances (the running minima of variants C and D)
  // ---------------------------------------------------------------------

  /** The Manhattan distance from `from` to the nearest of `targets`, capped
      at `Far`: the value of a running minimum started at `Far` and lowered
      whenever a candidate is strictly closer. */
  function CappedNearest(from: Pos, targets: seq<Pos>): (r: nat)
    ensures r <= Far
    ensures forall i :: 0 <= i < |targets| ==> r <= Manhattan(from, targets[i])
    ensures r == Far || exists i :: 0 <= i < |targets| && r == Manhattan(from, targets[i])
    ensures from in targets ==> r == 0
    decreases |targets|
  {
    if |targets| == 0 then Far
    else
      var m := CappedNearest(from, targets[..|targets| - 1]);
      var d := Manhattan(from, targets[|targets| - 1]);
      if d < m then d else m
  }

  /** A capped nearest distance is zero exactly when `from` is one of the
      targets. */
  lemma CappedNearestZero(from: Pos, targets: seq<Pos>)
    ensures CappedNearest(from, targets) == 0 <==> from in targets
  {
    if CappedNearest(from, targets) == 0 {
      var i :| 0 <= i < |targets| && 0 == Manhattan(from, targets[i]);
      assert targets[i] == from;
    }
  }

  // ---------------------------------------------------------------------
  // Variant D: nearest goal per crate plus nearest crate to the player
  // ---------------------------------------------------------------------

  /** The crate term of variant D: for every crate, its capped distance to
      the nearest goal, summed over the crates. */
  function SumNearest(crates: seq<Pos>, goals: seq<Pos>): (r: nat)
    ensures r <= Far * |crates|
    ensures |goals| == 0 ==> r == Far * |crates|
    ensures (forall i :: 0 <= i < |crates| ==> crates[i] in goals) ==> r == 0
    decreases |crates|
  {
    if |crates| == 0 then 0
    else SumNearest(crates[..|crates| - 1], goals) + CappedNearest(crates[|crates| - 1], goals)
  }

  /** The crate term of variant D is zero exactly when every crate lies on a
      goal. */
  lemma {:induction false} SumNearestZero(crates: seq<Pos>, goals: seq<Pos>)
    ensures SumNearest(crates, goals) == 0 <==> forall i :: 0 <= i < |crates| ==> crates[i] in goals
    decreases |crates|
  {
    if |crates| > 0 {
      var pre := crates[..|crates| - 1];
      var last := crates[|crates| - 1];
      SumNearestZero(pre, goals);
      CappedNearestZero(last, goals);
      if SumNearest(crates, goals) == 0 {
        forall i | 0 <= i < |crates|
          ensures crates[i] in goals
        {
          if i < |crates| - 1 {
            assert crates[i] == pre[i];
          }
        }
      }
    }
  }

  /** Variant D, the evaluator wired into the search: the crate term plus
      the capped distance from the player to the nearest crate. */
  function HeuristicsD(player: Pos, crates: seq<Pos>, goals: seq<Pos>): (r: nat)
    ensures |crates| == 0 ==> r == Far
    ensures r <= Far * (|crates| + 1)
    ensures |goals| == 0 ==> r == Far * |crates| + CappedNearest(player, crates)
  {
    SumNearest(crates, goals) + CappedNearest(player, crates)
  }

  /** The inner loop of variant D: a minimum over the goals, restarted at
      `Far` for every crate and lowered when a goal is strictly closer. */
  method NearestGoalDistance(crate: Pos, goals: seq<Pos>) returns (minDist: int)
    ensures minDist == CappedNearest(crate, goals)
  {
    minDist := Far;
    var j := 0;
    while j < |goals|
      invariant 0 <= j <= |goals|
      invariant minDist == CappedNearest(crate, goals[..j])
    {
      var goal := goals[j];
      var xDist := crate.x - goal.x;
      var yDist := crate.y - goal.y;
      if xDist < 0 { xDist := xDist * -1; }
      if yDist < 0 { yDist := yDist * -1; }
      var sum := xDist + yDist;
      if sum < minDist { minDist := sum; }
      assert goals[..j + 1][..j] == goals[..j];
      j := j + 1;
    }
    assert goals[..j] == goals;
  }

  /** The player half of the crate loop in variants C and D: lower the
      running player-to-crate minimum when this crate is strictly closer. */
  method NearerCrate(player: Pos, crate: Pos, playerDist: int) returns (r: int)
    ensures r == if Manhattan(player, crate) < playerDist then Manhattan(player, crate) else playerDist
  {
    var toBoxX := crate.x - player.x;
    var toBoxY := crate.y - player.y;
    if toBoxX < 0 { toBoxX := toBoxX * -1; }
    if toBoxY < 0 { toBoxY := toBoxY * -1; }
    r := playerDist;
    if r > toBoxY + toBoxX { r := toBoxY + toBoxX; }
  }

  /** The source's loop for variant D: one pass over the crates that keeps
      a per-crate minimum over the goals (restarted at `Far` for every
      crate) and a running minimum of player-to-crate distances. */
  method ComputeHeuristicsD(player: Pos, crates: seq<Pos>, goals: seq<Pos>) returns (score: int)
    ensures score == HeuristicsD(player, crates, goals)
  {
    score := 0;
    var playerDist: int := Far;
    var k := 0;
    while k < |crates|
      invariant 0 <= k <= |crates|
      invariant score == SumNearest(crates[..k], goals)
      invariant playerDist == CappedNearest(player, crates[..k])
    {
      var crate := crates[k];
      var minDist := NearestGoalDistance(crate, goals);
      score := score + minDist;
      playerDist := NearerCrate(player, crate, playerDist);
      CrateStep(player, crates, goals, k);
      k := k + 1;
    }
    assert crates[..k] == crates;
    score := score + playerDist;
  }

  /** One more crate adds its own nearest-goal distance to D's crate term
      and lowers the player-to-crate minimum when it is strictly closer. */
  lemma CrateStep(player: Pos, crates: seq<Pos>, goals: seq<Pos>, k: nat)
    requires k < |crates|
    ensures SumNearest(crates[..k + 1], goals) == SumNearest(crates[..k], goals) + CappedNearest(crates[k], goals)
    ensures CappedNearest(player, crates[..k + 1]) ==
      var m := CappedNearest(player, crates[..k]);
      if Manhattan(player, crates[k]) < m then Manhattan(player, crates[k]) else m
  {
    assert crates[..k + 1][..k] == crates[..k];
  }

  // ---------------------------------------------------------------------
  // Variant C: every goal per crate plus nearest crate to the player
  // ---------------------------------------------------------------------

  /** The Manhattan distances from `crate` to every goal, summed. */
  function SumToAllGoals(crate: Pos, goals: seq<Pos>): (r: nat)
    ensures forall i :: 0 <= i < |goals| ==> Manhattan(crate, goals[i]) <= r
    decreases |goals|
  {
    if |goals| == 0 then 0
    else SumToAllGoals(crate, goals[..|goals| - 1]) + Manhattan(crate, goals[|goals| - 1])
  }

  /** The crate term of variant C: `SumToAllGoals` summed over the crates. */
  function SumAllGoals(crates: seq<Pos>, goals: seq<Pos>): (r: nat)
    ensures |goals| == 0 ==> r == 0
    decreases |crates|
  {
    if |crates| == 0 then 0
    else SumAllGoals(crates[..|crates| - 1], goals) + SumToAllGoals(crates[|crates| - 1], goals)
  }

  /** Variant C: the all-goals crate term plus the capped distance from the
      player to the nearest crate. */
  function HeuristicsC(player: Pos, crates: seq<Pos>, goals: seq<Pos>): (r: nat)
    ensures |crates| == 0 ==> r == Far
    ensures |goals| == 0 ==> r == CappedNearest(player, crates)
  {
    SumAllGoals(crates, goals) + CappedNearest(player, crates)
  }

  /** The inner loop of variant C: the distance from one crate to every
      goal, added up. */
  method DistanceToAllGoals(crate: Pos, goals: seq<Pos>) returns (crateScore: int)
    ensures crateScore == SumToAllGoals(crate, goals)
  {
    crateScore := 0;
    var j := 0;
    while j < |goals|
      invariant 0 <= j <= |goals|
      invariant crateScore == SumToAllGoals(crate, goals[..j])
    {
      var goal := goals[j];
      var xDist := crate.x - goal.x;
      var yDist := crate.y - goal.y;
      if xDist < 0 { xDist := xDist * -1; }
      if yDist < 0 { yDist := yDist * -1; }
      crateScore := crateScore + xDist;
      crateScore := crateScore + yDist;
      assert goals[..j + 1][..j] == goals[..j];
      j := j + 1;
    }
    assert goals[..j] == goals;
  }

  /** The source's loop for variant C: for every crate, add its distance to
      every goal, and keep a running minimum of player-to-crate distances. */
  method ComputeHeuristicsC(player: Pos, crates: seq<Pos>, goals: seq<Pos>) returns (score: int)
    ensures score == HeuristicsC(player, crates, goals)
  {
    score := 0;
    var playerDist: int := Far;
    var k := 0;
    while k < |crates|
      invariant 0 <= k <= |crates|
      invariant score == SumAllGoals(crates[..k], goals)
      invariant playerDist == CappedNearest(player, crates[..k])
    {
      var crate := crates[k];
      var crateScore := DistanceToAllGoals(crate, goals);
      score := score + crateScore;
      playerDist := NearerCrate(player, crate, playerDist);
      assert crates[..k + 1][..k] == crates[..k];
      k := k + 1;
    }
    assert crates[..k] == crates;
    score := score + playerDist;
  }

  /** With at least one goal, every crate's all-goals sum is at least its
      capped nearest-goal distance, so C's crate term dominates D's. */
  lemma {:induction false} SumAllGoalsDominates(crates: seq<Pos>, goals: seq<Pos>)
    requires |goals| > 0
    ensures SumAllGoals(crates, goals) >= SumNearest(crates, goals)
    decreases |crates|
  {
    if |crates| > 0 {
      var last := crates[|crates| - 1];
      SumAllGoalsDominates(crates[..|crates| - 1], goals);
      assert CappedNearest(last, goals) <= Manhattan(last, goals[0]) <= SumToAllGoals(last, goals);
    }
  }

  /** Variant C is at least variant D exactly when there is a goal or there
      is no crate: with no goals C's crate term is zero while every crate
      adds `Far` to D. */
  lemma HeuristicsCDominatesD(player: Pos, crates: seq<Pos>, goals: seq<Pos>)
    ensures HeuristicsC(player, crates, goals) >= HeuristicsD(player, crates, goals)
        <==> |goals| > 0 || |crates| == 0
  {
    if |goals| > 0 {
      SumAllGoalsDominates(crates, goals);
    }
  }

  // ---------------------------------------------------------------------
  // Remaining goals
  // ---------------------------------------------------------------------

  /** How many entries of `crates` lie on some goal. */
  function CoveredCount(crates: seq<Pos>, goals: seq<Pos>): (r: nat)
    ensures r <= |crates|
    decreases |crates|
  {
    if |crates| == 0 then 0
    else CoveredCount(crates[..|crates| - 1], goals) + (if crates[|crates| - 1] in goals then 1 else 0)
  }

  /** The remaining-goals estimate: the number of goals minus the number of
      crates that lie on a goal. */
  function RemainingGoals(crates: seq<Pos>, goals: seq<Pos>): (r: int)
    ensures |goals| - |crates| <= r <= |goals|
  {
    |goals| - CoveredCount(crates, goals)
  }

  /** The source's loop: start from the goal count and decrement once per
      crate found in the goal list. */
  method ComputeRemainingGoals(crates: seq<Pos>, goals: seq<Pos>) returns (remaining: int)
    ensures remaining == RemainingGoals(crates, goals)
  {
    remaining := |goals|;
    var k := 0;
    while k < |crates|
      invariant 0 <= k <= |crates|
      invariant remaining == |goals| - CoveredCount(crates[..k], goals)
    {
      if crates[k] in goals {
        remaining := remaining - 1;
      }
      assert crates[..k + 1][..k] == crates[..k];
      k := k + 1;
    }
    assert crates[..k] == crates;
  }

  /** Splitting off the last entry of a sequence splits off one element of
      its set of entries, a new one when the entries are distinct. */
  lemma ElemsSnoc<T>(s: seq<T>)
    requires |s| > 0
    ensures Elems(s) == Elems(s[..|s| - 1]) + {s[|s| - 1]}
    ensures Distinct(s) ==> Distinct(s[..|s| - 1]) && s[|s| - 1] !in Elems(s[..|s| - 1])
  {
    var pre := s[..|s| - 1];
    forall x | x in Elems(s) ensures x in Elems(pre) + {s[|s| - 1]} {
      var i :| 0 <= i < |s| && s[i] == x;
      if i < |s| - 1 { assert pre[i] == x; }
    }
  }

  lemma {:induction false} ElemsCard<T>(s: seq<T>)
    ensures |Elems(s)| <= |s|
    ensures Distinct(s) ==> |Elems(s)| == |s|
    decreases |s|
  {
    if |s| > 0 {
      ElemsCard(s[..|s| - 1]);
      ElemsSnoc(s);
    }
  }

  /** For distinct crates, the covered count is the number of distinct goal
      cells that hold a crate. */
  lemma {:induction false} CoveredIsIntersection(crates: seq<Pos>, goals: seq<Pos>)
    requires Distinct(crates)
    ensures CoveredCount(crates, goals) == |Elems(crates) * Elems(goals)|
    decreases |crates|
  {
    if |crates| > 0 {
      var pre := crates[..|crates| - 1];
      var last := crates[|crates| - 1];
      ElemsSnoc(crates);
      CoveredIsIntersection(pre, goals);
      var before := Elems(pre) * Elems(goals);
      if last in goals {
        assert Elems(crates) * Elems(goals) == before + {last};
      } else {
        assert Elems(crates) * Elems(goals) == before;
      }
    }
  }

  /** With distinct crates the remaining-goals estimate is never negative,
      and it is zero only when every goal holds a crate. The converse needs
      distinct goals as well: a goal listed twice is counted twice. */
  lemma RemainingGoalsBounds(crates: seq<Pos>, goals: seq<Pos>)
    requires Distinct(crates)
    ensures RemainingGoals(crates, goals) >= 0
    ensures RemainingGoals(crates, goals) == 0 ==> forall i :: 0 <= i < |goals| ==> goals[i] in crates
    ensures Distinct(goals) && (forall i :: 0 <= i < |goals| ==> goals[i] in crates) ==>
      RemainingGoals(crates, goals) == 0
  {
    CoveredIsIntersection(crates, goals);
    ElemsCard(goals);
    var covered := Elems(crates) * Elems(goals);
    assert Elems(goals) == covered + (Elems(goals) - Elems(crates));
    if RemainingGoals(crates, goals) == 0 {
      assert Elems(goals) - Elems(crates) == {};
      forall i | 0 <= i < |goals| ensures goals[i] in crates {
        assert goals[i] in Elems(goals);
      }
    }
    if Distinct(goals) && forall i :: 0 <= i < |goals| ==> goals[i] in crates {
      assert Elems(goals) - Elems(crates) == {} by {
        forall x | x in Elems(goals) ensures x in Elems(crates) {
          var i :| 0 <= i < |goals| && goals[i] == x;
        }
      }
    }
  }

  /** A goal listed twice keeps the count above zero even when it holds
      the only crate. */
  lemma RepeatedGoalCountsTwice(g: Pos)
    ensures RemainingGoals([g], [g, g]) == 1
  {
  }
}
