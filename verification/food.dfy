/** Food: the bounded retry search that places it on a free cell, and the
    eating check that consumes it. */
module Food {
  import opened Grid
  import opened Snake

  /** Number of candidate cells the spawner tests before it gives up:
      one more than there are cells on the board. */
  const Attempts: nat := Width * Height + 1

  /** What the random source supplies to one spawn. `draws[0]` is the first
      candidate and `draws[i + 1]` the redraw taken after the i-th candidate
      was found occupied; every draw is on the board and every redraw differs
      from the candidate it replaces. The spawner consumes at most one draw
      more than it tests. */
  ghost predicate ValidDraws(draws: seq<Position>) {
    && |draws| > Attempts
    && (forall i :: 0 <= i < |draws| ==> InBounds(draws[i]))
    && (forall i :: 0 <= i < |draws| - 1 ==> draws[i + 1] != draws[i])
  }

  /** The first candidate from index `i` on that is not in the occupancy
      list, if there is one. */
  function FirstFree(occupied: seq<Position>, candidates: seq<Position>, i: nat): (r: Option<Position>)
    requires i <= |candidates|
    decreases |candidates| - i
    ensures r.None? <==> forall j :: i <= j < |candidates| ==> candidates[j] in occupied
    ensures r.Some? ==>
              exists k :: && i <= k < |candidates|
                          && candidates[k] == r.value
                          && r.value !in occupied
                          && forall j :: i <= j < k ==> candidates[j] in occupied
  {
    if i == |candidates| then None
    else if candidates[i] !in occupied then Some(candidates[i])
    else FirstFree(occupied, candidates, i + 1)
  }

  /** The spawner's search, as the loop the game runs: test the current
      candidate against the occupancy list; on a hit take the next draw,
      otherwise stop. `tests` counts the membership tests made. */
  method SpawnFood(occupied: seq<Position>, draws: seq<Position>) returns (food: Option<Position>, tests: nat)
    requires ValidDraws(draws)
    ensures food == FirstFree(occupied, draws[..Attempts], 0)
    ensures 1 <= tests <= Attempts
    ensures food.Some? ==> && food.value == draws[tests - 1]
                           && food.value !in occupied
                           && InBounds(food.value)
    ensures food.None? ==> && tests == Attempts
                           && forall j :: 0 <= j < Attempts ==> draws[j] in occupied
  {
    ghost var candidates := draws[..Attempts];
    var candidate := draws[0];
    var i := 0;
    tests := 0;
    while i < Attempts
      invariant 0 <= i <= Attempts
      invariant tests == i
      invariant candidate == draws[i]
      invariant forall j :: 0 <= j < i ==> draws[j] in occupied
      invariant FirstFree(occupied, candidates, i) == FirstFree(occupied, candidates, 0)
    {
      tests := tests + 1;
      if candidate !in occupied {
        return Some(candidate), tests;
      }
      candidate := draws[i + 1];
      i := i + 1;
    }
    return None, tests;
  }

  /** When every cell of the board is in the occupancy list, no candidate
      passes and no food is placed. */
  lemma BoardFullMeansNoFood(occupied: seq<Position>, draws: seq<Position>)
    requires ValidDraws(draws)
    requires forall p :: InBounds(p) ==> p in occupied
    ensures FirstFree(occupied, draws[..Attempts], 0) == None
  {
  }

  /** A random source that keeps alternating between two cells. */
  function Alternating(a: Position, b: Position): seq<Position> {
    seq(Attempts + 1, i => if i % 2 == 0 then a else b)
  }

  lemma AlternatingIsValid(a: Position, b: Position)
    requires a != b && InBounds(a) && InBounds(b)
    ensures ValidDraws(Alternating(a, b))
  {
  }

  /** The converse fails: a free cell can exist while the draws keep
      alternating between two occupied cells, so the search gives up. */
  lemma FreeCellCanBeMissed()
    ensures var occupied := [Position(0, 0), Position(0, 1)];
            var draws := Alternating(Position(0, 0), Position(0, 1));
            && ValidDraws(draws)
            && InBounds(Position(7, 7)) && Position(7, 7) !in occupied
            && FirstFree(occupied, draws[..Attempts], 0) == None
  {
  }

  /** The eating check of one tick. */
  datatype Eaten = Eaten(state: State, ate: bool)

  /** Eating happens exactly when the head stands on the food; the food is
      then consumed and nothing else changes. */
  function EatFood(s: State): (r: Eaten)
    ensures r.ate <==> |s.body| > 0 && s.food == Some(s.body[0])
    ensures r.ate ==> r.state == s.(food := None)
    ensures !r.ate ==> r.state == s
  {
    if |s.body| > 0 && s.food == Some(s.body[0]) then Eaten(s.(food := None), true)
    else Eaten(s, false)
  }
}
