/** The snake initialisation system (`initialize_snake`, src/plugins/snake/mod.rs):
    on a game-start message it spawns a three-segment snake whose head is in the
    middle of the grid and whose body extends to the left along the head's row. */
module Snake {
  import opened Core
  import opened Entities

  /** The spawn loop runs over `0..=2`. */
  const SNAKE_LENGTH: nat := 3

  /** The middle cell of the grid, rounding down. */
  function Center(grid: GridSize): GridPosition
  {
    GridPosition(grid.size.x / 2, grid.size.y / 2)
  }

  /** `center.x - snake_index` is a `u32` subtraction: it stays in range for every
      index of the spawn loop exactly when the centre column is at least 2. */
  predicate RoomLeftOfCenter(grid: GridSize)
  {
    grid.size.x / 2 >= SNAKE_LENGTH - 1
  }

  /** The segments one start message spawns, in spawn order. */
  function SnakeSpawn(grid: GridSize): (r: seq<Segment>)
    requires RoomLeftOfCenter(grid)
    ensures |r| == SNAKE_LENGTH
    ensures forall i :: 0 <= i < |r| ==> r[i].index == i
    ensures r[0].position == Center(grid)
    ensures forall i :: 0 < i < |r| ==>
      r[i].position.y == r[i - 1].position.y && r[i].position.x + 1 == r[i - 1].position.x
  {
    var center := Center(grid);
    seq(SNAKE_LENGTH, i requires 0 <= i < SNAKE_LENGTH =>
      Segment(i, GridPosition(center.x - i, center.y)))
  }

  /** The snake system's effect on the world: with no message waiting, nothing at all;
      otherwise the message is consumed and the snake's segments are appended. */
  function SnakeInit(s: WorldState, grid: GridSize): (r: WorldState)
    requires s.snakeStartPending ==> RoomLeftOfCenter(grid)
    ensures !s.snakeStartPending ==> r == s
    ensures s.snakeStartPending ==>
      !r.snakeStartPending && r.segments == s.segments + SnakeSpawn(grid)
    ensures r.foods == s.foods && r.foodStartPending == s.foodStartPending
  {
    if !s.snakeStartPending then s
    else s.(snakeStartPending := false, segments := s.segments + SnakeSpawn(grid))
  }

  /** `initialize_snake`: return when no message is waiting, otherwise clear the
      reader and spawn segments 0, 1 and 2 one by one. */
  method InitializeSnake(w: World, grid: GridSize)
    requires w.snakeStartPending ==> RoomLeftOfCenter(grid)
    modifies w
    ensures w.State() == SnakeInit(old(w.State()), grid)
  {
    if !w.snakeStartPending {
      return;
    }
    w.snakeStartPending := false;
    var center := Center(grid);
    for snakeIndex := 0 to SNAKE_LENGTH
      invariant w.segments == old(w.segments) + SnakeSpawn(grid)[..snakeIndex]
      invariant w.foods == old(w.foods) && w.foodStartPending == old(w.foodStartPending)
      invariant !w.snakeStartPending
    {
      var position := GridPosition(center.x - snakeIndex, center.y);
      w.segments := w.segments + [Segment(snakeIndex, position)];
    }
  }

  /** The spawned segments are on the grid and no two share a cell. */
  lemma SnakeSpawnPlacement(grid: GridSize)
    requires RoomLeftOfCenter(grid) && grid.size.y >= 1
    ensures forall i :: 0 <= i < SNAKE_LENGTH ==> InGrid(grid, SnakeSpawn(grid)[i].position)
    ensures forall i, j :: 0 <= i < j < SNAKE_LENGTH ==>
      SnakeSpawn(grid)[i].position != SnakeSpawn(grid)[j].position
  {
  }

  /** On the default 30 by 30 grid the snake is at (15,15), (14,15) and (13,15). */
  lemma DefaultSnake()
    ensures RoomLeftOfCenter(DefaultGrid())
    ensures SnakeSpawn(DefaultGrid()) == [
      Segment(0, GridPosition(15, 15)),
      Segment(1, GridPosition(14, 15)),
      Segment(2, GridPosition(13, 15))]
  {
  }
}
