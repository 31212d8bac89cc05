# Snake game start-up: snake and food initialisation

This project models the two start-up systems of a Bevy snake game in Dafny.

- `initialize_snake` runs after the game-start message. It spawns a three-segment snake in the middle of the grid.
- `initialize_food` runs once a snake exists and its own copy of the message is waiting. It spawns one food on a random cell the snake does not occupy.

The model also covers the message itself, which is written once at startup.

The world the systems act on is a class `Entities.World` with four fields:

- the snake-segment entities, each an `(index, GridPosition)` pair, in spawn order;
- the food entities' positions;
- one pending-message flag per reader: one for the snake system, one for the food system.

`World.State()` gives this as a `WorldState` value. Each system is a method that changes the world in place. Its `ensures` ties the new state to a pure function of the old one: `Snake.SnakeInit`, `Food.FoodInit` and `Game.WriteGameStart`. The properties are proved about those functions.

The random number generator is replaced by a caller-supplied stream of cells, `samples`. Element k is the `(x, y)` pair the k-th round of the drawing loop would draw. The `Food.AllInGrid` requirement says every drawn cell is on the grid, which is what `gen_range(0..n)` promises. The drawing loop then becomes "take the first sample that is free". The loop has no bound, so whenever the food system gets past its two early returns, its callers must supply a stream holding a free cell (`Food.HasFree`).

Coordinates and sizes are Rust `u32`, modelled as the subset type `Core.U32`. The snake's columns come from the `u32` subtraction `center.x - snake_index`. For that to stay in range, `Snake.InitializeSnake` requires `size.x / 2 >= 2` whenever it will spawn. This holds on the default 30 by 30 grid.

## Model

| member | source | states |
|---|---|---|
| `Core.DefaultGrid` | src/core/resources.rs:13-18 | the default grid resource is 30 by 30 cells of 24 pixels |
| `Entities.Positions` | src/plugins/food/mod.rs:23 | the occupied cells, one per segment, in segment order, each the segment's position |
| `Snake.SnakeSpawn` | src/plugins/snake/mod.rs:19-32 | one start message spawns exactly three segments, indexed 0, 1, 2 contiguously from 0; the head is at the centre `(size.x / 2, size.y / 2)`; each later segment is on the previous one's row, one column to its left |
| `Snake.SnakeSpawnPlacement` | src/plugins/snake/mod.rs:19-28 | for a grid at least 4 wide and 1 high, all three segments are on the grid and no two share a cell |
| `Snake.DefaultSnake` | src/plugins/snake/mod.rs:19-28 | on the default grid the segments are (15,15), (14,15), (13,15) |
| `Snake.SnakeInit` | src/plugins/snake/mod.rs:12-32 | with no message waiting, the world is unchanged; otherwise the snake's message is cleared and the three segments are appended after the existing ones; food and the food system's message are never touched |
| `Snake.InitializeSnake` | src/plugins/snake/mod.rs:12-41 | the early return, clearing the reader, and the loop spawning segments 0..=2 leave exactly the world `SnakeInit` describes |
| `Food.Occupied` | src/plugins/food/mod.rs:28 | a cell is occupied exactly when some occupied cell has the same coordinates |
| `Food.OccupiedIsMembership` | src/plugins/food/mod.rs:28 | the field-wise occupancy test is membership in the occupied cells |
| `Food.OccupiedIgnoresOrder` | src/plugins/food/mod.rs:23-28 | occupancy depends only on which cells the query yields, not on their order |
| `Food.FirstFreeIgnoresOrder` | src/plugins/food/mod.rs:23-33 | the chosen sample depends only on which cells the query yields, not on their order |
| `Food.FirstFree` | src/plugins/food/mod.rs:25-33 | the index returned is of a free sample with every earlier sample occupied; there is none exactly when every sample of the stream is occupied |
| `Food.SampleFreeCell` | src/plugins/food/mod.rs:24-33 | the drawing loop stops on the first free sample after skipping every occupied one; the cell it returns is on the grid and differs from every occupied cell; draws counts the samples consumed |
| `Food.SkipOccupiedPrefix` | src/plugins/food/mod.rs:25-33 | occupied samples at the head of the stream are skipped: the choice is the first free sample of what follows them |
| `Food.FirstFreeIgnoresLaterSamples` | src/plugins/food/mod.rs:25-33 | samples after the first free one do not affect the choice |
| `Food.FullBoardHasNoFreeSample` | src/plugins/food/mod.rs:25-33 | when every grid cell is occupied, no drawable stream holds a free cell, so the loop never ends |
| `Food.FoodInit` | src/plugins/food/mod.rs:12-44 | with no segments, or no message waiting, the world is unchanged, so the message stays pending while there is no snake; otherwise the food message is cleared and exactly one food is appended; that food is the first free sample and lies on no segment; segments and the snake's message are unchanged |
| `Food.InitializeFood` | src/plugins/food/mod.rs:12-44 | the two early returns, clearing the reader, the drawing loop and the spawn leave exactly the world `FoodInit` describes; nothing is drawn when the system returns early; otherwise the new food is on the grid |
| `Game.WriteGameStart` | src/plugins/game/mod.rs:12-15 | writing the start message makes it pending in both readers and changes no entity |
| `Game.InitializeGameMessage` | src/plugins/game/mod.rs:12-15 | the startup system leaves exactly the world `WriteGameStart` describes |
| `Game.StartupSpawnsSnakeAndFood` | src/plugins/food/mod.rs:12-44 | from the startup world, snake initialisation followed by food initialisation gives exactly 3 segments, indexed 0..2, on the grid, head at the centre; exactly 1 food, on the grid and off the snake; both messages consumed |
| `Game.FoodFirstOrderCatchesUp` | src/plugins/food/mod.rs:13-15 | food initialisation before any snake exists changes nothing and keeps its message, so an update running food first ends with 3 segments, no food and the food message pending; the food system's next run then reaches the same world as snake then food |
| `Game.StartupConsumedOnce` | src/plugins/snake/mod.rs:13-17 | after both systems have consumed the start message, further runs of either spawn nothing |
| `Game.RunStartup` | src/plugins/game/mod.rs:8-15 | the startup system writing the message (cited lines), then one update running the snake system (src/plugins/snake/mod.rs:8) and then the food system (src/plugins/food/mod.rs:8), on a fresh world: 3 segments and 1 food off the snake, chosen at the first free sample |

## Left out

- Snake.InitializeSnake: requires `size.x / 2 >= 2` when the message is waiting. On a narrower grid `center.x - snake_index` underflows `u32`: a debug build panics and a release build wraps. Neither behaviour is modelled.
- Food.InitializeFood: the random generator is a caller-supplied stream of cells. `StdRng::from_os_rng` and the uniform distribution of `gen_range` are not modelled. The requirement that every sample is on the grid stands in for the half-open ranges. On a zero-width or zero-height grid, `gen_range` would panic on its empty range. There only an empty stream meets the requirements, so the model excludes that case instead of modelling the panic.
- Food.InitializeFood: an endless draw, on a stream with no free cell, is excluded by a requirement, not modelled. `Food.FullBoardHasNoFreeSample` shows that a full board leads to it.
- Bevy scheduling: `Commands` are applied at once instead of at the end of a schedule. Message lifetimes and reader cursors become one pending flag per system. Systems run one after the other. `Game.FoodFirstOrderCatchesUp` shows that with food running first, the food appears one update later. With deferred commands that is also what a real first update gives.
- Sprites, sizes, `Transform` and `GridSize::to_pixels` are floating-point presentation and are not modelled. The `pixels` field of the grid is carried but never used.
- The board drawing system, the camera, colour constants and `BOARD_SIZE` are display-only.
- `main`, environment lookup, logging, plugin and resource registration are process wiring.
- The definitions of `SnakeSegment`, `Food`, `GameStartEvent`, `Growth` and `GameStatus` are not part of this model. Segments are given a `u32` index, as the subtraction in the spawn loop implies.
- Movement, wrap-around, growth, collision, game over and restart appear in no modelled source file, so they are not modelled.
- The distribution of the draws is not modelled; the model follows the unbounded drawing loop at src/plugins/food/mod.rs:25-33.
