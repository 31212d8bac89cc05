/** The game-start message (`initialize_game_message`, src/plugins/game/mod.rs) and
    what the two initialisation systems make of it at startup. */
module Game {
  import opened Core
  import opened Entities
  import opened Snake
  import opened Food

  /** Writing one `GameStartEvent`: every reader of the message, the snake system's
      and the food system's, now has it waiting; no entity changes. */
  function WriteGameStart(s: WorldState): (r: WorldState)
    ensures r.snakeStartPending && r.foodStartPending
    ensures r.segments == s.segments && r.foods == s.foods
  {
    s.(snakeStartPending := true, foodStartPending := true)
  }

  /** `initialize_game_message`, run once in the startup schedule. */
  method InitializeGameMessage(w: World)
    modifies w
    ensures w.State() == WriteGameStart(old(w.State()))
  {
    w.snakeStartPending, w.foodStartPending := true, true;
  }

  /** The world when the first update begins: nothing spawned, the message written. */
  function Startup(): WorldState
  {
    WriteGameStart(EmptyWorld)
  }

  /** The requirements under which startup places a snake and a food: the snake's
      columns do not underflow, the grid has a row, the stream is what the random
      generator can draw and it holds a cell off the snake. */
  predicate StartupFeasible(grid: GridSize, samples: seq<GridPosition>)
  {
    RoomLeftOfCenter(grid) && grid.size.y >= 1 && AllInGrid(grid, samples) &&
    HasFree(samples, Positions(SnakeSpawn(grid)))
  }

  /** Snake initialisation and then food initialisation, from the startup world,
      leave exactly three segments indexed 0, 1, 2 on the grid, exactly one food on
      the grid and off the snake, and no message waiting for either system. */
  lemma StartupSpawnsSnakeAndFood(grid: GridSize, samples: seq<GridPosition>)
    requires StartupFeasible(grid, samples)
    ensures var s := FoodInit(SnakeInit(Startup(), grid), samples);
      && |s.segments| == 3
      && (forall i :: 0 <= i < 3 ==> s.segments[i].index == i && InGrid(grid, s.segments[i].position))
      && s.segments[0].position == Center(grid)
      && |s.foods| == 1
      && InGrid(grid, s.foods[0])
      && (forall i :: 0 <= i < 3 ==> s.segments[i].position != s.foods[0])
      && !s.snakeStartPending && !s.foodStartPending
  {
  }

  /** The two systems in the other order. In a first update where food
      initialisation runs before snake initialisation, the food system finds no
      snake and keeps its message, so that update ends with the snake and no food.
      The food system's run in the next update then reaches the same world as snake
      initialisation followed by food initialisation. */
  lemma FoodFirstOrderCatchesUp(grid: GridSize, samples: seq<GridPosition>)
    requires StartupFeasible(grid, samples)
    ensures FoodInit(Startup(), samples) == Startup()
    ensures var s := SnakeInit(FoodInit(Startup(), samples), grid);
      |s.segments| == 3 && |s.foods| == 0 && s.foodStartPending && !s.snakeStartPending
    ensures FoodInit(SnakeInit(FoodInit(Startup(), samples), grid), samples) ==
            FoodInit(SnakeInit(Startup(), grid), samples)
  {
  }

  /** The message is acted on exactly once: after startup, later updates in which no
      new message arrives spawn nothing more. */
  lemma StartupConsumedOnce(grid: GridSize, samples: seq<GridPosition>, later: seq<GridPosition>)
    requires StartupFeasible(grid, samples)
    ensures var s := FoodInit(SnakeInit(Startup(), grid), samples);
      SnakeInit(s, grid) == s && FoodInit(s, later) == s
  {
  }

  /** Startup run against a fresh world: the message is written, then the snake
      system runs, then the food system. */
  method RunStartup(grid: GridSize, samples: seq<GridPosition>) returns (w: World, draws: nat)
    requires StartupFeasible(grid, samples)
    ensures w.State() == FoodInit(SnakeInit(Startup(), grid), samples)
    ensures |w.segments| == 3 && |w.foods| == 1
    ensures forall i :: 0 <= i < 3 ==> w.segments[i].position != w.foods[0]
    ensures 0 < draws <= |samples| && FirstFree(samples, Positions(SnakeSpawn(grid))) == Some(draws - 1)
  {
    w := new World();
    InitializeGameMessage(w);
    InitializeSnake(w, grid);
    assert w.segments == SnakeSpawn(grid);
    draws := InitializeFood(w, grid, samples);
    StartupSpawnsSnakeAndFood(grid, samples);
  }
}
