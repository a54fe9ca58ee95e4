/** The growth system: on a growth signal the snake gains one segment on
    the cell its tail left during the same tick. */
module Growth {
  import opened Grid
  import opened Snake

  /** Appends a segment at the last tail cell and puts that cell back at the
      front of the occupancy list, undoing the removal the movement tick just
      made. The game unwraps the last tail cell, so it must have been
      recorded. */
  function SnakeGrowth(s: State): (r: State)
    requires s.lastTail.Some?
    ensures |r.body| == |s.body| + 1
    ensures r.body[..|s.body|] == s.body && r.body[|s.body|] == s.lastTail.value
    ensures |r.occupied| == |s.occupied| + 1
    ensures r.occupied[0] == s.lastTail.value && r.occupied[1..] == s.occupied
    ensures r == s.(body := r.body, occupied := r.occupied)
  {
    var tail := s.lastTail.value;
    s.(body := s.body + [tail], occupied := [tail] + s.occupied)
  }

  /** Growth keeps the invariant when the recorded tail cell is on the
      board: the head and the segment behind it are untouched. */
  lemma GrowthKeepsInv(s: State)
    requires Inv(s)
    requires s.lastTail.Some? && InBounds(s.lastTail.value)
    ensures Inv(SnakeGrowth(s))
  {
  }
}
