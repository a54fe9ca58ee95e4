/** The game's lifecycle: spawning the snake, resetting on game over, one
    fixed tick (movement, then eating, then growth) and one whole frame of
    the schedule. */
module Lifecycle {
  import opened Grid
  import opened Snake
  import opened Input
  import opened Movement
  import opened Food
  import opened Growth

  /** The starting layout: the head on (0,1) facing up, one segment below it
      on (0,0). Both cells are pushed onto the occupancy list head first. */
  function SpawnSnake(s: State): (r: State)
    ensures r.body == [Position(0, 1), Position(0, 0)]
    ensures r.direction == Up && r.queued == Up
    ensures r.occupied == s.occupied + [Position(0, 1), Position(0, 0)]
    ensures r.lastTail == s.lastTail && r.food == s.food
  {
    s.(body := [Position(0, 1), Position(0, 0)],
       direction := Up,
       queued := Up,
       occupied := s.occupied + [Position(0, 1), Position(0, 0)])
  }

  /** The state before anything is spawned: no snake, no food, an empty
      occupancy list and no recorded tail cell. */
  function Unspawned(): State {
    State([], Up, Up, [], None, None)
  }

  /** The state the startup stage produces; it also requests the first food. */
  function Startup(): (r: State)
    ensures Inv(r)
    ensures r.occupied == [Position(0, 1), Position(0, 0)]
    ensures r.food == None && r.lastTail == None
  {
    SpawnSnake(Unspawned())
  }

  /** The game-over reset: every grid object (segments and food) is removed,
      the occupancy list is emptied and the snake is spawned again. The
      recorded tail cell is left as it was. */
  function GameOver(s: State): (r: State)
    ensures Inv(r)
    ensures r.body == Startup().body && r.occupied == Startup().occupied
    ensures r.direction == Up && r.queued == Up
    ensures r.food == None
    ensures r.lastTail == s.lastTail
  {
    SpawnSnake(s.(body := [], occupied := [], food := None))
  }

  /** What one fixed tick leaves behind: the new state and the game-over and
      spawn-food signals it raised. */
  datatype TickOut = TickOut(state: State, gameOver: bool, spawnFood: bool)

  /** One fixed tick: movement, then eating, then growth when eating raised
      the growth signal. */
  function Tick(s: State): (r: TickOut)
    ensures r.gameOver <==>
              |s.body| > 0 &&
              (!InBounds(Step(s.body[0], s.queued)) || Step(s.body[0], s.queued) in s.body)
    ensures r.spawnFood <==> |s.body| > 0 && s.food == Some(Step(s.body[0], s.queued))
    ensures r.spawnFood ==> && r.state.food == None
                            && |r.state.body| == |s.body| + 1
                            && r.state.body[|s.body|] == s.body[|s.body| - 1]
    ensures !r.spawnFood ==> |r.state.body| == |s.body| && r.state.food == s.food
    ensures |s.occupied| == |s.body| ==> |r.state.occupied| == |r.state.body|
  {
    var moved := SnakeMovement(s);
    var eaten := EatFood(moved.state);
    var grown := if eaten.ate then SnakeGrowth(eaten.state) else eaten.state;
    TickOut(grown, moved.GameOver(), eaten.ate)
  }

  /** A tick that raises no game over keeps the invariant. */
  lemma TickKeepsInv(s: State)
    requires Inv(s)
    requires !Tick(s).gameOver
    ensures Inv(Tick(s).state)
  {
  }

  /** What one frame leaves behind: the state and whether a food spawn is
      requested for the next frame. */
  datatype FrameOut = FrameOut(state: State, spawnFood: bool)

  /** The cell a requested food spawn finds, if a spawn is requested and
      finds one. */
  function Placement(s: State, spawnFood: bool, draws: seq<Position>): (r: Option<Position>)
    requires spawnFood ==> ValidDraws(draws)
    ensures !spawnFood ==> r.None?
    ensures spawnFood ==> (r.None? <==> forall j :: 0 <= j < Attempts ==> draws[j] in s.occupied)
    ensures r.Some? ==>
              && InBounds(r.value)
              && r.value !in s.occupied
              && exists k :: && 0 <= k < Attempts
                             && draws[k] == r.value
                             && forall j :: 0 <= j < k ==> draws[j] in s.occupied
  {
    if spawnFood then FirstFree(s.occupied, draws[..Attempts], 0) else None
  }

  /** The systems of one frame up to the reset: a requested food spawn
      (which raises game over when it finds no free cell), then input, then
      the fixed tick when its timer fires. The result carries the state and
      the game-over and spawn-food signals raised on the way. */
  function Systems(s: State, spawnFood: bool, keys: Keys, tick: bool, draws: seq<Position>): (r: TickOut)
    requires spawnFood ==> ValidDraws(draws)
    ensures var placed := Placement(s, spawnFood, draws);
            var food := if placed.Some? then placed else s.food;
            var dir := SnakeInput(s, keys).queued;
            && (r.gameOver <==>
                  || (spawnFood && forall j :: 0 <= j < Attempts ==> draws[j] in s.occupied)
                  || (tick && |s.body| > 0 &&
                      (!InBounds(Step(s.body[0], dir)) || Step(s.body[0], dir) in s.body)))
            && (r.spawnFood <==> tick && |s.body| > 0 && food == Some(Step(s.body[0], dir)))
            && (r.spawnFood ==> r.state.food == None && |r.state.body| == |s.body| + 1)
            && (!r.spawnFood ==> r.state.food == food && |r.state.body| == |s.body|)
            && (!tick ==> && r.state.body == s.body
                          && r.state.occupied == s.occupied
                          && r.state.direction == s.direction
                          && r.state.queued == dir)
            && (tick && |s.body| > 0 ==> r.state.body[0] == Step(s.body[0], dir) && r.state.direction == dir)
    ensures |s.occupied| == |s.body| ==> |r.state.occupied| == |r.state.body|
  {
    var placed := Placement(s, spawnFood, draws);
    var fed := if placed.Some? then s.(food := placed) else s;
    var steered := SnakeInput(fed, keys);
    assert steered == fed.(queued := SnakeInput(s, keys).queued);
    var ticked := if tick then Tick(steered) else TickOut(steered, false, false);
    TickOut(ticked.state, (spawnFood && placed.None?) || ticked.gameOver, ticked.spawnFood)
  }

  /** The systems of a frame that raise no game over keep the invariant. */
  lemma SystemsKeepsInv(s: State, spawnFood: bool, keys: Keys, tick: bool, draws: seq<Position>)
    requires Inv(s)
    requires spawnFood ==> ValidDraws(draws)
    requires !Systems(s, spawnFood, keys, tick, draws).gameOver
    ensures Inv(Systems(s, spawnFood, keys, tick, draws).state)
  {
  }

  /** One frame of the schedule: the systems, then the reset when any
      game-over signal was raised. Several game-over signals in one frame
      cause one reset, and a reset requests new food. */
  function Frame(s: State, spawnFood: bool, keys: Keys, tick: bool, draws: seq<Position>): (r: FrameOut)
    requires spawnFood ==> ValidDraws(draws)
    ensures var placed := Placement(s, spawnFood, draws);
            var steered := SnakeInput(if placed.Some? then s.(food := placed) else s, keys);
            var collided := tick && Tick(steered).gameOver;
            && ((spawnFood && placed.None?) || collided ==>
                  && r.state.body == Startup().body
                  && r.state.occupied == Startup().occupied
                  && r.state.direction == Up && r.state.queued == Up
                  && r.state.food == None
                  && r.spawnFood)
            && (!(spawnFood && placed.None?) && !collided ==>
                  && (r.spawnFood <==> tick && Tick(steered).spawnFood)
                  && r.state == (if tick then Tick(steered).state else steered))
    ensures spawnFood && !tick && Placement(s, spawnFood, draws).Some? ==>
              r.state.food == Placement(s, spawnFood, draws) && !r.spawnFood
    ensures |s.occupied| == |s.body| ==> |r.state.occupied| == |r.state.body|
  {
    var pending := Systems(s, spawnFood, keys, tick, draws);
    if pending.gameOver then FrameOut(GameOver(pending.state), true)
    else FrameOut(pending.state, pending.spawnFood)
  }

  /** Every frame keeps the invariant, whatever the keys, the timer and the
      random draws. */
  lemma FrameKeepsInv(s: State, spawnFood: bool, keys: Keys, tick: bool, draws: seq<Position>)
    requires Inv(s)
    requires spawnFood ==> ValidDraws(draws)
    ensures Inv(Frame(s, spawnFood, keys, tick, draws).state)
  {
  }

  /** What the outside world supplies to one frame: the held keys, whether
      the fixed-tick timer fired, and the random draws for a food spawn. */
  datatype FrameInput = FrameInput(keys: Keys, tick: bool, draws: seq<Position>)

  ghost predicate ValidInputs(inputs: seq<FrameInput>) {
    forall i :: 0 <= i < |inputs| ==> ValidDraws(inputs[i].draws)
  }

  /** A run of consecutive frames. */
  function Run(s: State, spawnFood: bool, inputs: seq<FrameInput>): (r: FrameOut)
    requires ValidInputs(inputs)
    decreases |inputs|
  {
    if |inputs| == 0 then FrameOut(s, spawnFood)
    else
      var out := Frame(s, spawnFood, inputs[0].keys, inputs[0].tick, inputs[0].draws);
      Run(out.state, out.spawnFood, inputs[1..])
  }

  /** The invariant holds after every run of frames that starts in it. */
  lemma {:induction false} RunKeepsInv(s: State, spawnFood: bool, inputs: seq<FrameInput>)
    requires Inv(s)
    requires ValidInputs(inputs)
    ensures Inv(Run(s, spawnFood, inputs).state)
    decreases |inputs|
  {
    if |inputs| > 0 {
      var out := Frame(s, spawnFood, inputs[0].keys, inputs[0].tick, inputs[0].draws);
      FrameKeepsInv(s, spawnFood, inputs[0].keys, inputs[0].tick, inputs[0].draws);
      RunKeepsInv(out.state, out.spawnFood, inputs[1..]);
    }
  }

  /** Every game, from startup (which requests the first food) through any
      sequence of frames: the occupancy list is as long as the snake, the
      queued direction never reverses the head, and the snake is on the
      board. */
  lemma GameKeepsInv(inputs: seq<FrameInput>)
    requires ValidInputs(inputs)
    ensures Inv(Run(Startup(), true, inputs).state)
  {
    RunKeepsInv(Startup(), true, inputs);
  }

  /** The first tick from the starting layout with no key held: the head
      reaches (0,2) and the segment follows to (0,1). Because the occupancy
      list was seeded head first, it then holds (0,0) and (0,2). */
  lemma FirstTickFromStartup()
    ensures Tick(Startup()) ==
            TickOut(State([Position(0, 2), Position(0, 1)], Up, Up,
                          [Position(0, 0), Position(0, 2)], Some(Position(0, 0)), None),
                    false, false)
  {
  }

  /** Food on (0,2) is eaten on the first tick: the snake grows onto (0,0),
      the tail cell it just left, and a new food is requested. */
  lemma EatingOnFirstTick()
    ensures Tick(Startup().(food := Some(Position(0, 2)))) ==
            TickOut(State([Position(0, 2), Position(0, 1), Position(0, 0)], Up, Up,
                          [Position(0, 0), Position(0, 0), Position(0, 2)], Some(Position(0, 0)), None),
                    false, true)
  {
    var s := Startup().(food := Some(Position(0, 2)));
    FirstTickFromStartup();
    var moved := SnakeMovement(s);
    assert moved.state == SnakeMovement(Startup()).state.(food := Some(Position(0, 2)));
    assert moved.GameOver() == SnakeMovement(Startup()).GameOver();
    var eaten := EatFood(moved.state);
    assert eaten.ate && eaten.state == moved.state.(food := None);
    var grown := SnakeGrowth(eaten.state);
    assert grown.body == [Position(0, 2), Position(0, 1)] + [Position(0, 0)];
    assert grown.occupied == [Position(0, 0)] + [Position(0, 0), Position(0, 2)];
  }

  /** Stepping onto the cell the tail is leaving still ends the game: the
      snake coiled in a 2x2 square turns into its own tail, and after the
      move no two segments share a cell. The reset restores the start. */
  lemma ChasingTheTailEndsGame()
    ensures var s := State([Position(1, 1), Position(1, 0), Position(0, 0), Position(0, 1)], Up, Left,
                           [Position(0, 1), Position(0, 0), Position(1, 0), Position(1, 1)],
                           Some(Position(0, 2)), None);
            && Inv(s)
            && Tick(s).gameOver
            && Tick(s).state.body == [Position(0, 1), Position(1, 1), Position(1, 0), Position(0, 0)]
            && Frame(s, false, Keys(false, false, false, false), true, []).state.body == Startup().body
  {
  }

  /** Stepping off any edge ends the game, while the same snake one cell
      further in moves on. */
  lemma WallsEndGame()
    ensures var right := State([Position(14, 3), Position(13, 3)], Right, Right, [Position(13, 3), Position(14, 3)], None, None);
            var left := State([Position(0, 3), Position(1, 3)], Left, Left, [Position(1, 3), Position(0, 3)], None, None);
            var top := State([Position(4, 14), Position(4, 13)], Up, Up, [Position(4, 13), Position(4, 14)], None, None);
            var bottom := State([Position(4, 0), Position(4, 1)], Down, Down, [Position(4, 1), Position(4, 0)], None, None);
            var inner := State([Position(13, 3), Position(12, 3)], Right, Right, [Position(12, 3), Position(13, 3)], None, None);
            && Tick(right).gameOver && Tick(left).gameOver
            && Tick(top).gameOver && Tick(bottom).gameOver
            && !Tick(inner).gameOver
  {
  }
}
