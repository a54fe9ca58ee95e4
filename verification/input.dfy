/** The per-frame keyboard sampling that fills the queued-direction slot. */
module Input {
  import opened Grid
  import opened Snake

  /** The arrow key for `d` is held. */
  predicate Held(keys: Keys, d: Direction) {
    match d
    case Left => keys.left
    case Down => keys.down
    case Up => keys.up
    case Right => keys.right
  }

  predicate AnyHeld(keys: Keys) {
    keys.left || keys.down || keys.up || keys.right
  }

  /** Place of a key in the polling order: lower ranks are consulted first. */
  function Rank(d: Direction): nat {
    match d
    case Left => 0
    case Down => 1
    case Up => 2
    case Right => 3
  }

  /** The direction the keyboard asks for: the held key that comes first in
      the order Left, Down, Up, Right, or the queued direction when no arrow
      key is held. */
  function Sample(keys: Keys, queued: Direction): (r: Direction)
    ensures AnyHeld(keys) ==> Held(keys, r)
    ensures AnyHeld(keys) ==> forall d :: Held(keys, d) ==> Rank(r) <= Rank(d)
    ensures !AnyHeld(keys) ==> r == queued
  {
    if keys.left then Left
    else if keys.down then Down
    else if keys.up then Up
    else if keys.right then Right
    else queued
  }

  /** The input system: the sampled direction replaces the queued one unless
      it reverses the head's current direction; without a snake nothing
      happens. Only the queued slot ever changes. */
  function SnakeInput(s: State, keys: Keys): (r: State)
    ensures r == s.(queued := r.queued)
    ensures r.queued != s.queued ==>
              |s.body| > 0 && r.queued == Sample(keys, s.queued) && r.queued != Opposite(s.direction)
    ensures |s.body| > 0 && Sample(keys, s.queued) != Opposite(s.direction) ==>
              r.queued == Sample(keys, s.queued)
    ensures s.queued != Opposite(s.direction) ==> r.queued != Opposite(r.direction)
  {
    if |s.body| == 0 then s
    else
      var dir := Sample(keys, s.queued);
      if dir != Opposite(s.direction) then s.(queued := dir) else s
  }

  /** Sampling is a pure function of the keys: the result is the unique held
      key of least rank. */
  lemma SampleIsLeastHeld(keys: Keys, queued: Direction, d: Direction)
    requires Held(keys, d)
    requires forall e :: Held(keys, e) ==> Rank(d) <= Rank(e)
    ensures Sample(keys, queued) == d
  {
  }

  /** Input keeps the whole invariant: it only touches the queued slot and
      never writes a reversal into it. */
  lemma InputKeepsInv(s: State, keys: Keys)
    requires Inv(s)
    ensures Inv(SnakeInput(s, keys))
  {
  }
}
