/** The simulation state that the game keeps in its entity store and
    resources, gathered into one immutable record. */
module Snake {
  import opened Grid

  /** Which of the four arrow keys are held in the current frame. */
  datatype Keys = Keys(left: bool, down: bool, up: bool, right: bool)

  /** One snapshot of the game.
      - `body`: the cells of the snake's segments in segment order, the head
        at index 0; empty before the snake has been spawned;
      - `direction`: the head's current direction;
      - `queued`: the direction the next movement tick will commit;
      - `occupied`: the occupancy list the food spawner consults;
      - `lastTail`: the cell the tail left on the latest movement tick;
      - `food`: the cell of the live food, if any. */
  datatype State = State(
    body: seq<Position>,
    direction: Direction,
    queued: Direction,
    occupied: seq<Position>,
    lastTail: Option<Position>,
    food: Option<Position>)

  /** What holds of every state the game shows between two frames:
      - the snake has at least its two starting segments;
      - the occupancy list is as long as the snake;
      - the queued direction is never the reversal of the current one;
      - the head sits one step ahead of the segment behind it;
      - every segment is on the board. */
  predicate Inv(s: State) {
    && |s.body| >= 2
    && |s.occupied| == |s.body|
    && s.queued != Opposite(s.direction)
    && s.body[0] == Step(s.body[1], s.direction)
    && (forall i :: 0 <= i < |s.body| ==> InBounds(s.body[i]))
  }
}
