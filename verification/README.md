# Snake simulation state machine

A Dafny model of the game logic of `snake_rs`, a grid snake game written in
Rust on the Bevy engine. The model keeps the simulation and drops the engine:
the entity store and resources become one immutable `State` record, and every
game system becomes a pure step function on it.

- `Grid` — board cells, the four directions, the one-cell `Step` and the
  reversal map `Opposite`.
- `Snake` — the `State` record (segment cells head first, head direction,
  queued direction, occupancy list, last tail cell, food cell) and the
  invariant `Inv` every state between two frames satisfies.
- `Input` — `snake_input`: key sampling in the order Left, Down, Up, Right,
  and the reversal filter on the queued direction.
- `Movement` — `snake_movement`: commit the queued direction, move the head,
  shift the body, update the occupancy list, flag wall and self collisions.
- `Food` — `spawn_food` as a bounded retry search over an oracle of random
  cells (a loop method and a recursive reference function), and `eat_food`.
- `Growth` — `snake_growth`: a new segment on the last tail cell.
- `Lifecycle` — `spawn_snake`, `game_over`, one fixed tick
  (movement, then eating, then growth), one whole frame of the schedule, and
  runs of frames from startup.
- `TailFirst` — the occupancy-seeding finding below.

Signals (growth, spawn food, game over) are booleans: the game reads each
event queue with `iter().next().is_some()`, which drains the queue, so several
signals of one kind in a frame act once. The random source of `spawn_food` is
a parameter: a sequence of on-board cells in which every redraw differs from
the candidate it replaces, which is what the inner redraw loop of the game
guarantees.

Where the game's own comments and its code disagree, the model follows the
code:
- the comment on the occupancy list (src/main.rs:80) orders it tail to head,
  but the spawn pushes the head first; after one tick up from the start the
  list holds (0,0) and (0,2), not (0,1) and (0,2)
  (`Lifecycle.FirstTickFromStartup`);
- the reset does not clear the recorded tail cell, and the model keeps it.

`Growth.SnakeGrowth` requires a recorded tail cell because the game unwraps
it (src/main.rs:396, 398). The requirement always holds at its call site:
growth is only signalled by eating in a tick, and the movement of that same
tick has already recorded the cell (src/main.rs:353).

## Model

| member | source | states |
|---|---|---|
| Grid.Step | src/main.rs:325-338 | Left and Right change only x, Up and Down only y; Left lowers x, Right raises it, Up raises y, Down lowers it |
| Grid.StepIsAdjacent | src/main.rs:325-338 | the head always moves to one of the four neighbours of its cell (distance exactly one) |
| Grid.Opposite | src/main.rs:44-53 | the reversal is never the direction itself, and stepping along it undoes a step along the direction |
| Grid.OppositeIsInvolution | src/main.rs:44-53 | reversing twice gives the direction back |
| Grid.OnlyOppositeUndoesStep | src/main.rs:44-53 | a direction undoes a step along `d` exactly when it is the reversal of `d`, which forces Left with Right and Up with Down |
| Input.Sample | src/main.rs:292-302 | with any arrow key held, the result is a held key of least rank in the order Left, Down, Up, Right; with none held, the previously queued direction |
| Input.SampleIsLeastHeld | src/main.rs:292-302 | the least-ranked held key is the only possible sample |
| Input.SnakeInput | src/main.rs:287-308 | only the queued slot changes; it changes only to the sample and only when the sample is not the reversal of the head's direction; it always takes a non-reversing sample; the rule queued != reversal of direction is kept |
| Input.InputKeepsInv | src/main.rs:287-308 | input keeps the whole state invariant |
| Movement.SnakeMovement | src/main.rs:310-364 | segment count and occupancy length unchanged; new head one step along the queued direction; segment i takes segment i-1's old cell; direction becomes the queued one; last tail is the old tail cell; wall hit iff the new head is off the board; self hit iff the new head is among the pre-move cells; the occupancy list drops its first entry and gains the new head; no snake means no change |
| Movement.NoInstantReversal | src/main.rs:304-306 | under the invariant the head never steps onto the segment just behind it |
| Movement.MovementKeepsInv | src/main.rs:319-363 | a movement tick without a collision keeps the state invariant |
| Food.FirstFree | src/main.rs:218-238 | no result iff every candidate is occupied; otherwise the first unoccupied candidate |
| Food.SpawnFood | src/main.rs:202-260 | the loop agrees with `FirstFree` on the first WIDTH*HEIGHT+1 draws; it makes between 1 and WIDTH*HEIGHT+1 membership tests; a placed cell is on the board, unoccupied and the last candidate tested; no placement means every tested candidate was occupied and all tests were used |
| Food.BoardFullMeansNoFood | src/main.rs:240-246 | when every board cell is in the occupancy list no food is placed |
| Food.FreeCellCanBeMissed | src/main.rs:215-246 | the converse fails: with a free cell left, draws alternating between two occupied cells make the search give up |
| Food.EatFood | src/main.rs:366-382 | eating happens iff the head is on the food; it removes the food and changes nothing else |
| Growth.SnakeGrowth | src/main.rs:384-400 | one segment is appended on the last tail cell and that cell is put at the front of the occupancy list; both grow by one; nothing else changes |
| Growth.GrowthKeepsInv | src/main.rs:392-398 | growth on an on-board tail cell keeps the state invariant |
| Lifecycle.SpawnSnake | src/main.rs:169-199 | the snake is the head on (0,1) facing up and a segment on (0,0); both cells are appended to the occupancy list head first |
| Lifecycle.Startup | src/main.rs:102-107 | the startup state satisfies the invariant, with occupancy list (0,1), (0,0), no food and no tail cell |
| Lifecycle.GameOver | src/main.rs:418-434 | the reset state is the starting layout with the invariant, food removed, and the recorded tail cell kept |
| Lifecycle.Tick | src/main.rs:124-141 | game over iff the next head cell is off the board or on a pre-move segment; spawn-food iff it is the food cell, in which case the food is gone and the snake grew onto its old tail cell; otherwise length and food unchanged; equal occupancy and snake lengths stay equal |
| Lifecycle.TickKeepsInv | src/main.rs:124-140 | a tick without game over keeps the state invariant |
| Lifecycle.Placement | src/main.rs:202-246 | without a spawn request nothing is placed; with one, nothing is placed iff each of the first WIDTH*HEIGHT+1 draws is in the occupancy list; a placed cell is on the board, off the list, and the first draw not in the list |
| Lifecycle.Systems | src/main.rs:111-140 | over the state before the frame: game over is signalled iff a requested spawn finds each of its first WIDTH*HEIGHT+1 draws occupied, or a tick moves the head, along the direction the keys leave queued, off the board or onto the snake; spawn-food is signalled iff a tick moves the head onto the food (the placed food, or else the old one), which then grows the snake by one and removes the food; without a tick the snake, its occupancy list and its direction are unchanged; a tick moves the head one step along the queued direction; equal occupancy and snake lengths stay equal |
| Lifecycle.SystemsKeepsInv | src/main.rs:111-140 | a frame's systems that raise no game over keep the whole state invariant |
| Lifecycle.Frame | src/main.rs:111-141 | when the food spawn fails or the tick collides, the state is reset to the start layout, facing up, without food and new food is requested; otherwise new food is requested iff the tick ate and the state is the ticked (or, without a tick, the steered) state; a successful spawn without a tick places the food; equal occupancy and snake lengths stay equal |
| Lifecycle.FrameKeepsInv | src/main.rs:111-141 | every frame keeps the state invariant, for all keys, timer states and random draws |
| Lifecycle.RunKeepsInv | src/main.rs:111-141 | any run of frames that starts in the invariant ends in it |
| Lifecycle.GameKeepsInv | src/main.rs:102-141 | from startup, after any sequence of frames, the occupancy list is as long as the snake, the queued direction never reverses the head's, the head is one step ahead of the next segment and every segment is on the board |
| Lifecycle.FirstTickFromStartup | src/main.rs:176-196 | one tick up from the start puts the snake on (0,2), (0,1) with occupancy list (0,0), (0,2) |
| Lifecycle.EatingOnFirstTick | src/main.rs:366-400 | food on (0,2) is eaten on the first tick and the snake grows onto (0,0) |
| Lifecycle.ChasingTheTailEndsGame | src/main.rs:356-360 | stepping onto the cell the tail is leaving ends the game, and the reset restores the start |
| Lifecycle.WallsEndGame | src/main.rs:339-345 | leaving the board across any of the four edges ends the game; a step inside does not |
| TailFirst.FirstFramePlacesFood | src/main.rs:107-119 | from startup, a first frame without a tick whose first draw is (0,2) places the food there and requests nothing |
| TailFirst.SecondFrameEats | src/main.rs:124-140 | a second frame with a tick eats that food: the snake is (0,2), (0,1), (0,0), its occupancy list (0,0), (0,0), (0,2), and new food is requested |
| TailFirst.ThirdFrameFeedsSnake | src/main.rs:202-260 | a third frame without a tick whose first draw is (0,1) places the food on (0,1) |
| TailFirst.HeadFirstSeedPutsFoodOnSnake | src/main.rs:195-196 | in the game's own three-frame run from startup (place food on (0,2), tick and eat it, draw (0,1)) the food ends on (0,1), which is a segment of the snake |
| TailFirst.SpawnSnakeTailFirst | src/main.rs:195-196 | the corrected spawn: the same snake, with the cells pushed tail first |
| TailFirst.GameOverTailFirst | src/main.rs:418-434 | the corrected reset satisfies the invariant and its occupancy list mirrors the snake |
| TailFirst.MovementKeepsMirror | src/main.rs:346-362 | a movement tick keeps the occupancy list the tail-to-head mirror of the snake |
| TailFirst.GrowthKeepsMirror | src/main.rs:393-398 | growth keeps the mirror |
| TailFirst.TickKeepsMirror | src/main.rs:124-140 | every tick keeps the mirror, game over or not |
| TailFirst.InputKeepsMirror | src/main.rs:304-306 | input keeps the mirror |
| TailFirst.MirroredFoodOffSnake | src/main.rs:219 | with a mirrored occupancy list food is never placed under a segment |
| TailFirst.TickKeepsSound | src/main.rs:124-140 | a tick keeps the mirror and keeps food off the snake: a head reaching the food eats it, and every other segment moves onto a cell the snake already held |
| TailFirst.StartupTailFirst | src/main.rs:169-199 | the corrected startup has the game's snake, no food, the invariant and the mirror |
| TailFirst.FrameTailFirst | src/main.rs:111-141 | the corrected frame agrees with the game's frame on the spawn request and on every part of the state except the occupancy list; in a frame without game over it is the game's frame exactly |
| TailFirst.FrameTailFirstKeepsSound | src/main.rs:111-141 | every corrected frame keeps the mirror and keeps food off the snake, for all keys, timer states and draws (food placed in a frame with a tick is seen by that tick, see Left out) |
| TailFirst.RunTailFirstKeepsSound | src/main.rs:111-141 | any run of corrected frames from a sound state ends in a sound state |
| TailFirst.CorrectedGameKeepsFoodOffSnake | src/main.rs:102-141 | in the corrected game, from startup through any sequence of frames, the occupancy list mirrors the snake, so every spawn lands on a cell the snake does not hold at that moment; in the model food also never lies under a segment afterwards (see Left out) |

## Left out

- Engine plumbing: app construction, system labels and stages, event readers and writers (src/main.rs:94-150). A tick is the fixed composition movement, eating, growth, then the reset; the code orders the reset only after movement, so the engine may also run it before eating or growth, which the model does not explore.
- TailFirst.CorrectedGameKeepsFoodOffSnake: its food-off-snake half relies on the model letting a frame's tick eat the food that frame placed. In the game that food only exists after the stage (src/main.rs:248), so eating (src/main.rs:370-375) cannot see it. A frame that serves a spawn request, draws the cell the head is about to enter, and also ticks leaves the food under the head, even with the tail-first seeding. What carries over to the game is the mirror half: every spawn avoids the cells the snake holds when the spawn runs (`TailFirst.MirroredFoodOffSnake`), and every tick keeps the mirror whatever the food (`TailFirst.TickKeepsMirror`).
- Deferred entity commands: the engine creates and removes entities at the end of a stage, the model applies every change at once and keeps at most one food. Two consequences are not modelled. Food placed by `spawn_bundle` (src/main.rs:248) only exists after the stage, while the model lets that frame's tick eat it. A reset in the same frame as a spawn cannot despawn the pending food (src/main.rs:425-429), so the game can then hold two foods.
- Camera, materials, sprites and the `Size` component (src/main.rs:26-38, 153-166), and the pixel transforms `size_scaling` and `position_translation` (src/main.rs:262-285): rendering only.
- Floating-point sampling with `random::<f32>()` (src/main.rs:215-227): replaced by the oracle of on-board cells; the inner redraw loop is the oracle's condition that each redraw differs from the rejected candidate.
- The `Debug` implementation and the logging (src/main.rs:17-24, 242).
- 8-bit coordinates: positions stay within one cell of the 15x15 board, so they are unbounded integers.
- The head's direction before the first spawn is not observable; the unspawned state records Up.

## Findings

| source | as written | input that shows it | evidently intended | confidence | as-written member | corrected member |
|---|---|---|---|---|---|---|
| src/main.rs:195-196 | the starting cells are pushed head first, against the tail-to-head order stated at src/main.rs:80, so the list drifts away from the snake's cells | no key held throughout; frame 1 without a tick draws (0,2) and places the food; frame 2 ticks and the snake eats it, leaving the list (0,0), (0,0), (0,2) over the snake (0,2), (0,1), (0,0); frame 3 draws (0,1), which the list does not hold, so the food lands on the segment at (0,1) | push (0,0) before (0,1), so the list mirrors the snake and a spawn never picks a cell the snake holds | high, not executed | TailFirst.HeadFirstSeedPutsFoodOnSnake | TailFirst.SpawnSnakeTailFirst |

The corrected spawn works with the same movement, growth and input functions
as the rest of the model, which are proved to keep the mirror
(`TailFirst.TickKeepsMirror`). `TailFirst.FrameTailFirst` runs the game's
frame with the corrected reset, and `TailFirst.CorrectedGameKeepsFoodOffSnake`
proves that from the corrected startup the list always mirrors the snake, so
no spawn picks a cell the snake holds. Food can still end up under the
head when it is placed in a frame whose tick moves the head onto it, because
the game creates the food only after that tick; the model does not show this
(see "Left out"). The
main lifecycle keeps the head-first seeding so that it describes the game as
it behaves; only the length of the occupancy list is guaranteed there. The
draws of the three-frame run exist: `Food.AlternatingIsValid` gives valid
draws starting with any on-board cell.
