/** Board geometry of the snake game: cells, the four compass directions,
    the one-cell step a head takes per tick, and the reversal map. */
module Grid {

  /** Board size in cells (WIDTH and HEIGHT of the game). */
  const Width: nat := 15
  const Height: nat := 15

  datatype Option<T> = None | Some(value: T)

  /** A board cell. Coordinates are unbounded integers: the only cell ever
      outside the board is a head that has just stepped one cell past an edge,
      so the source's 8-bit coordinates never wrap. */
  datatype Position = Position(x: int, y: int)

  datatype Direction = Up | Down | Left | Right

  /** The cell lies on the board [0, Width) x [0, Height). */
  predicate InBounds(p: Position) {
    0 <= p.x < Width && 0 <= p.y < Height
  }

  function Abs(n: int): nat {
    if n < 0 then -n else n
  }

  /** Manhattan distance between two cells. */
  function Distance(p: Position, q: Position): nat {
    Abs(p.x - q.x) + Abs(p.y - q.y)
  }

  /** The cell one step from `p` in direction `d`: x grows to the right and
      y grows upwards. */
  function Step(p: Position, d: Direction): (r: Position)
    ensures d == Left || d == Right ==> r.y == p.y
    ensures d == Up || d == Down ==> r.x == p.x
    ensures d == Left ==> r.x < p.x
    ensures d == Right ==> r.x > p.x
    ensures d == Up ==> r.y > p.y
    ensures d == Down ==> r.y < p.y
  {
    match d
    case Left => Position(p.x - 1, p.y)
    case Right => Position(p.x + 1, p.y)
    case Up => Position(p.x, p.y + 1)
    case Down => Position(p.x, p.y - 1)
  }

  /** A step always lands on one of the four neighbours of the cell. */
  lemma StepIsAdjacent(p: Position, d: Direction)
    ensures Distance(p, Step(p, d)) == 1
  {
  }

  /** The 180-degree reversal of a direction: it is never the direction
      itself, and stepping along it undoes a step along `d`. */
  function Opposite(d: Direction): (r: Direction)
    ensures r != d
    ensures forall p {:trigger Step(Step(p, d), r)} :: Step(Step(p, d), r) == p
  {
    match d
    case Left => Right
    case Right => Left
    case Up => Down
    case Down => Up
  }

  /** Reversal is an involution. */
  lemma OppositeIsInvolution(d: Direction)
    ensures Opposite(Opposite(d)) == d
  {
  }

  /** The reversal is the only direction that brings a step back to where
      it started, so it pairs Left with Right and Up with Down. */
  lemma OnlyOppositeUndoesStep(p: Position, d: Direction, e: Direction)
    ensures Step(Step(p, d), e) == p <==> e == Opposite(d)
  {
  }
}
