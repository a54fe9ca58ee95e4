/** The occupancy list is documented as ordered tail to head, but the snake
    is spawned with its cells pushed head first. This module shows what that
    seeding breaks and proves that seeding tail first keeps the list an
    exact mirror of the snake through every step. */
module TailFirst {
  import opened Grid
  import opened Snake
  import opened Input
  import opened Movement
  import opened Food
  import opened Growth
  import opened Lifecycle

  /** The occupancy list lists the snake's cells from the tail to the head. */
  predicate Mirrors(s: State) {
    && |s.occupied| == |s.body|
    && forall i :: 0 <= i < |s.body| ==> s.occupied[i] == s.body[|s.body| - 1 - i]
  }

  /** No arrow key held. */
  const Idle := Keys(false, false, false, false)

  /** The snake after eating food on (0,2) on the first tick, with the
      head-first occupancy list. */
  const FirstMeal := State([Position(0, 2), Position(0, 1), Position(0, 0)], Up, Up,
                           [Position(0, 0), Position(0, 0), Position(0, 2)], Some(Position(0, 0)), None)

  /** Prepending a frame with valid draws keeps a run's inputs valid. */
  lemma ValidPrepend(x: FrameInput, rest: seq<FrameInput>)
    requires ValidDraws(x.draws) && ValidInputs(rest)
    ensures ValidInputs([x] + rest)
  {
    forall i | 0 <= i < |[x] + rest|
      ensures ValidDraws(([x] + rest)[i].draws)
    {
      if i > 0 {
        assert ([x] + rest)[i] == rest[i - 1];
      }
    }
  }

  /** Frame one of the witness below: the startup request places food on
      the first draw, (0,2), and the run goes on from there. */
  lemma FirstFramePlacesFood(first: seq<Position>, rest: seq<FrameInput>)
    requires ValidDraws(first) && first[0] == Position(0, 2)
    requires ValidInputs(rest)
    ensures Run(Startup(), true, [FrameInput(Idle, false, first)] + rest) ==
            Run(Startup().(food := Some(Position(0, 2))), false, rest)
  {
    assert first[..Attempts][0] == Position(0, 2);
    assert Placement(Startup(), true, first) == Some(Position(0, 2));
    var s := Startup().(food := Some(Position(0, 2)));
    assert SnakeInput(s, Idle) == s;
    assert Frame(Startup(), true, Idle, false, first) == FrameOut(s, false);
    assert ([FrameInput(Idle, false, first)] + rest)[1..] == rest;
  }

  /** Frame two: the tick moves the head onto the food and the snake grows,
      leaving the list (0,0), (0,0), (0,2). */
  lemma SecondFrameEats(second: seq<Position>, rest: seq<FrameInput>)
    requires ValidDraws(second)
    requires ValidInputs(rest)
    ensures Run(Startup().(food := Some(Position(0, 2))), false, [FrameInput(Idle, true, second)] + rest) ==
            Run(FirstMeal, true, rest)
  {
    var s := Startup().(food := Some(Position(0, 2)));
    assert SnakeInput(s, Idle) == s;
    EatingOnFirstTick();
    assert Frame(s, false, Idle, true, second) == FrameOut(FirstMeal, true);
    assert ([FrameInput(Idle, true, second)] + rest)[1..] == rest;
  }

  /** Frame three: (0,1) is missing from the list, so a first draw of (0,1)
      places the food there, under the snake's middle segment. */
  lemma ThirdFrameFeedsSnake(third: seq<Position>)
    requires ValidDraws(third) && third[0] == Position(0, 1)
    ensures Run(FirstMeal, true, [FrameInput(Idle, false, third)]).state ==
            FirstMeal.(food := Some(Position(0, 1)))
  {
    assert third[..Attempts][0] == Position(0, 1);
    assert Placement(FirstMeal, true, third) == Some(Position(0, 1));
    var s := FirstMeal.(food := Some(Position(0, 1)));
    assert SnakeInput(s, Idle) == s;
    var last := Frame(FirstMeal, true, Idle, false, third);
    assert last.state == s;
    assert Run(FirstMeal, true, [FrameInput(Idle, false, third)]) == Run(last.state, last.spawnFood, []);
  }

  /** With the head-first seeding the game can place food under its own
      snake. From startup: the first frame places food on (0,2); the next
      frame's tick moves the head onto it, so the snake grows and the list
      becomes (0,0), (0,0), (0,2) over the cells (0,2), (0,1), (0,0); the
      third frame then draws (0,1), which the list does not hold. Random
      sources with these first draws exist (`AlternatingIsValid`). */
  lemma HeadFirstSeedPutsFoodOnSnake(first: seq<Position>, second: seq<Position>, third: seq<Position>)
    requires ValidDraws(first) && first[0] == Position(0, 2)
    requires ValidDraws(second)
    requires ValidDraws(third) && third[0] == Position(0, 1)
    ensures var inputs := [FrameInput(Idle, false, first)] +
                          ([FrameInput(Idle, true, second)] + [FrameInput(Idle, false, third)]);
            && Run(Startup(), true, inputs).state.food == Some(Position(0, 1))
            && Position(0, 1) in Run(Startup(), true, inputs).state.body
  {
    var last := [FrameInput(Idle, false, third)];
    ValidPrepend(FrameInput(Idle, false, third), []);
    var later := [FrameInput(Idle, true, second)] + last;
    ValidPrepend(FrameInput(Idle, true, second), last);
    ValidPrepend(FrameInput(Idle, false, first), later);
    FirstFramePlacesFood(first, later);
    SecondFrameEats(second, last);
    ThirdFrameFeedsSnake(third);
    var r := Run(Startup(), true, [FrameInput(Idle, false, first)] + later).state;
    assert r == FirstMeal.(food := Some(Position(0, 1)));
    assert r.body[1] == Position(0, 1);
  }

  /** The snake spawn with its two cells pushed tail first. */
  function SpawnSnakeTailFirst(s: State): (r: State)
    ensures r.body == SpawnSnake(s).body
    ensures r.direction == Up && r.queued == Up
    ensures r.occupied == s.occupied + [Position(0, 0), Position(0, 1)]
    ensures r.lastTail == s.lastTail && r.food == s.food
  {
    s.(body := [Position(0, 1), Position(0, 0)],
       direction := Up,
       queued := Up,
       occupied := s.occupied + [Position(0, 0), Position(0, 1)])
  }

  /** The game-over reset with the tail-first spawn: the same snake as the
      reset of the game, with an occupancy list that mirrors it. */
  function GameOverTailFirst(s: State): (r: State)
    ensures Inv(r) && Mirrors(r)
    ensures r.body == GameOver(s).body && r.food == None && r.lastTail == s.lastTail
  {
    SpawnSnakeTailFirst(s.(body := [], occupied := [], food := None))
  }

  /** A movement tick keeps the mirror: the new head enters at the head end
      of the list while the old tail's cell leaves at the other end. */
  lemma MovementKeepsMirror(s: State)
    requires Mirrors(s)
    ensures Mirrors(SnakeMovement(s).state)
  {
  }

  /** Growth keeps the mirror: the new tail segment and the re-inserted
      cell are the same cell, at the two matching ends. */
  lemma GrowthKeepsMirror(s: State)
    requires Mirrors(s)
    requires s.lastTail.Some?
    ensures Mirrors(SnakeGrowth(s))
  {
  }

  /** Every tick keeps the mirror, game over or not. */
  lemma TickKeepsMirror(s: State)
    requires Mirrors(s)
    ensures Mirrors(Tick(s).state)
  {
    var moved := SnakeMovement(s);
    MovementKeepsMirror(s);
    var eaten := EatFood(moved.state);
    assert Mirrors(eaten.state);
    if eaten.ate {
      GrowthKeepsMirror(eaten.state);
    }
  }

  /** Input never touches the cells, so it keeps the mirror. */
  lemma InputKeepsMirror(s: State, keys: Keys)
    requires Mirrors(s)
    ensures Mirrors(SnakeInput(s, keys))
  {
  }

  /** With a mirrored occupancy list the spawner never places food under
      any segment of the snake. */
  lemma {:induction false} MirroredFoodOffSnake(s: State, draws: seq<Position>)
    requires Mirrors(s)
    requires ValidDraws(draws)
    ensures FirstFree(s.occupied, draws[..Attempts], 0).Some? ==>
              FirstFree(s.occupied, draws[..Attempts], 0).value !in s.body
  {
    var found := FirstFree(s.occupied, draws[..Attempts], 0);
    if found.Some? {
      var n := |s.body|;
      forall k | 0 <= k < n
        ensures s.body[k] != found.value
      {
        assert s.occupied[n - 1 - k] == s.body[k];
      }
    }
  }

  /** The corrected game's state is sound: the occupancy list mirrors the
      snake and any live food lies off the snake. */
  predicate Sound(s: State) {
    && Mirrors(s)
    && (s.food.Some? ==> s.food.value !in s.body)
  }

  /** A tick keeps food off the snake: a head that reaches the food eats
      it, and every other segment stands where a segment stood before. */
  lemma TickKeepsSound(s: State)
    requires Sound(s)
    ensures Sound(Tick(s).state)
  {
    TickKeepsMirror(s);
    var moved := SnakeMovement(s);
    var eaten := EatFood(moved.state);
    if !eaten.ate && s.food.Some? {
      var b := moved.state.body;
      forall i | 0 <= i < |b|
        ensures b[i] != s.food.value
      {
        if i > 0 {
          assert b[i] == s.body[i - 1];
        }
      }
    }
  }

  /** The starting state of the corrected game. */
  function StartupTailFirst(): (r: State)
    ensures Inv(r) && Sound(r)
    ensures r.body == Startup().body && r.food == None
  {
    SpawnSnakeTailFirst(Unspawned())
  }

  /** One frame of the corrected game: the same systems as the game's
      frame, followed by the corrected reset. */
  function FrameTailFirst(s: State, spawnFood: bool, keys: Keys, tick: bool, draws: seq<Position>): (r: FrameOut)
    requires spawnFood ==> ValidDraws(draws)
    ensures r.spawnFood == Frame(s, spawnFood, keys, tick, draws).spawnFood
    ensures r.state == Frame(s, spawnFood, keys, tick, draws).state.(occupied := r.state.occupied)
    ensures !Systems(s, spawnFood, keys, tick, draws).gameOver ==> r == Frame(s, spawnFood, keys, tick, draws)
  {
    var pending := Systems(s, spawnFood, keys, tick, draws);
    if pending.gameOver then FrameOut(GameOverTailFirst(pending.state), true)
    else FrameOut(pending.state, pending.spawnFood)
  }

  /** Every corrected frame keeps the state sound: a spawn uses the mirrored
      list, so it lands off the snake. */
  lemma {:induction false} FrameTailFirstKeepsSound(s: State, spawnFood: bool, keys: Keys, tick: bool, draws: seq<Position>)
    requires Sound(s)
    requires spawnFood ==> ValidDraws(draws)
    ensures Sound(FrameTailFirst(s, spawnFood, keys, tick, draws).state)
  {
    var placed := Placement(s, spawnFood, draws);
    if placed.Some? {
      MirroredFoodOffSnake(s, draws);
    }
    var fed := if placed.Some? then s.(food := placed) else s;
    assert Sound(fed);
    var steered := SnakeInput(fed, keys);
    InputKeepsMirror(fed, keys);
    assert Sound(steered);
    if tick {
      TickKeepsSound(steered);
    }
    var pending := Systems(s, spawnFood, keys, tick, draws);
    assert pending.state == (if tick then Tick(steered).state else steered);
  }

  /** A run of corrected frames. */
  function RunTailFirst(s: State, spawnFood: bool, inputs: seq<FrameInput>): (r: FrameOut)
    requires ValidInputs(inputs)
    decreases |inputs|
  {
    if |inputs| == 0 then FrameOut(s, spawnFood)
    else
      var out := FrameTailFirst(s, spawnFood, inputs[0].keys, inputs[0].tick, inputs[0].draws);
      RunTailFirst(out.state, out.spawnFood, inputs[1..])
  }

  /** Every run of corrected frames keeps the state sound. */
  lemma {:induction false} RunTailFirstKeepsSound(s: State, spawnFood: bool, inputs: seq<FrameInput>)
    requires Sound(s)
    requires ValidInputs(inputs)
    ensures Sound(RunTailFirst(s, spawnFood, inputs).state)
    decreases |inputs|
  {
    if |inputs| > 0 {
      var out := FrameTailFirst(s, spawnFood, inputs[0].keys, inputs[0].tick, inputs[0].draws);
      FrameTailFirstKeepsSound(s, spawnFood, inputs[0].keys, inputs[0].tick, inputs[0].draws);
      RunTailFirstKeepsSound(out.state, out.spawnFood, inputs[1..]);
    }
  }

  /** In the corrected game, from startup through any sequence of frames,
      the occupancy list mirrors the snake and food never lies under any of
      its segments. */
  lemma CorrectedGameKeepsFoodOffSnake(inputs: seq<FrameInput>)
    requires ValidInputs(inputs)
    ensures var r := RunTailFirst(StartupTailFirst(), true, inputs).state;
            && Mirrors(r)
            && (r.food.Some? ==> r.food.value !in r.body)
  {
    RunTailFirstKeepsSound(StartupTailFirst(), true, inputs);
  }
}

