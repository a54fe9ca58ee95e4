/** The fixed-tick movement system: commits the queued direction, advances
    the head one cell, drags every segment into its predecessor's old cell,
    updates the occupancy list and flags wall and self collisions. */
module Movement {
  import opened Grid
  import opened Snake

  /** The state after a movement tick, with the two collision signals. */
  datatype Moved = Moved(state: State, hitWall: bool, hitSelf: bool) {
    /** Either collision raises the one game-over signal. */
    predicate GameOver() {
      hitWall || hitSelf
    }
  }

  /** One movement tick. The head moves even when it leaves the board, and
      the self-collision test looks at where every segment stood before the
      move, the tail's vacated cell included. Without a snake nothing
      happens. */
  function SnakeMovement(s: State): (r: Moved)
    ensures |r.state.body| == |s.body|
    ensures |r.state.occupied| == |s.occupied|
    ensures r.state.food == s.food
    ensures |s.body| == 0 ==> r == Moved(s, false, false)
    ensures |s.body| > 0 ==>
              && r.state.body[0] == Step(s.body[0], s.queued)
              && (forall i :: 1 <= i < |s.body| ==> r.state.body[i] == s.body[i - 1])
              && r.state.direction == s.queued
              && r.state.queued == s.queued
              && r.state.lastTail == Some(s.body[|s.body| - 1])
              && (r.hitWall <==> !InBounds(r.state.body[0]))
              && (r.hitSelf <==> r.state.body[0] in s.body)
    ensures |s.body| > 0 ==>
              (forall i :: 0 <= i < |s.occupied| - 1 ==> r.state.occupied[i] == s.occupied[i + 1])
    ensures |s.body| > 0 && |s.occupied| > 0 ==>
              r.state.occupied[|s.occupied| - 1] == r.state.body[0]
  {
    if |s.body| == 0 then Moved(s, false, false)
    else
      var snapshot := s.body;
      var head := Step(snapshot[0], s.queued);
      var occupied := (s.occupied + [head])[1..];
      var body := [head] + snapshot[..|snapshot| - 1];
      Moved(
        s.(body := body, direction := s.queued, occupied := occupied,
           lastTail := Some(snapshot[|snapshot| - 1])),
        !InBounds(head),
        head in snapshot)
  }

  /** The reversal filter does its job: under the invariant the head never
      steps back onto the segment right behind it. */
  lemma NoInstantReversal(s: State)
    requires Inv(s)
    ensures SnakeMovement(s).state.body[0] != s.body[1]
  {
  }

  /** A movement tick that raises no game over keeps the invariant. */
  lemma MovementKeepsInv(s: State)
    requires Inv(s)
    requires !SnakeMovement(s).GameOver()
    ensures Inv(SnakeMovement(s).state)
  {
  }
}
