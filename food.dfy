/** The food initialisation system (`initialize_food`, src/plugins/food/mod.rs): once
    the snake exists and a game-start message is waiting, it consumes the message and
    spawns one food on a cell the snake does not occupy, drawing random cells until
    one is free.

    The random number generator is replaced by the stream of cells it would draw:
    `samples[k]` is the `(x, y)` pair of the k-th iteration of the drawing loop. */
module Food {
  import opened Core
  import opened Entities

  /** `occupied_cells.iter().any(|pos| pos.x == x && pos.y == y)`. */
  function Occupied(cells: seq<GridPosition>, p: GridPosition): (r: bool)
    ensures r <==> exists i :: 0 <= i < |cells| && cells[i] == p
  {
    |cells| > 0 && ((cells[0].x == p.x && cells[0].y == p.y) || Occupied(cells[1..], p))
  }

  /** What `gen_range(0..grid.size.x)` and `gen_range(0..grid.size.y)` promise: every
      drawn cell is on the grid. */
  predicate AllInGrid(grid: GridSize, samples: seq<GridPosition>)
  {
    forall k :: 0 <= k < |samples| ==> InGrid(grid, samples[k])
  }

  /** Some cell of the stream is free. */
  predicate HasFree(samples: seq<GridPosition>, cells: seq<GridPosition>)
  {
    exists k :: 0 <= k < |samples| && !Occupied(cells, samples[k])
  }

  /** The position in the stream of the first free cell, if there is one. */
  function FirstFree(samples: seq<GridPosition>, cells: seq<GridPosition>): (r: Option<nat>)
    ensures r.Some? ==> r.value < |samples| && !Occupied(cells, samples[r.value])
    ensures r.Some? ==> forall k :: 0 <= k < r.value ==> Occupied(cells, samples[k])
    ensures r.None? <==> !HasFree(samples, cells)
  {
    if samples == [] then None
    else if !Occupied(cells, samples[0]) then Some(0)
    else
      match FirstFree(samples[1..], cells)
      case None => None
      case Some(k) => Some(k + 1)
  }

  /** The drawing loop: draw cells until one is not occupied. It ends only on a free
      cell, so it needs a stream that holds one. Returns the cell and the number of
      draws made. */
  method SampleFreeCell(grid: GridSize, occupied: seq<GridPosition>, samples: seq<GridPosition>)
    returns (food: GridPosition, draws: nat)
    requires AllInGrid(grid, samples)
    requires HasFree(samples, occupied)
    ensures 0 < draws <= |samples| && food == samples[draws - 1]
    ensures FirstFree(samples, occupied) == Some(draws - 1)
    ensures forall k :: 0 <= k < draws - 1 ==> Occupied(occupied, samples[k])
    ensures InGrid(grid, food)
    ensures forall i :: 0 <= i < |occupied| ==> occupied[i] != food
  {
    food := GridPosition(0, 0);
    draws := 0;
    while true
      invariant draws < |samples|
      invariant forall k :: 0 <= k < draws ==> Occupied(occupied, samples[k])
      decreases |samples| - draws
    {
      var candidate := samples[draws];
      draws := draws + 1;
      if !Occupied(occupied, candidate) {
        food := candidate;
        break;
      }
    }
  }

  /** The food system goes on past its two early returns. */
  predicate FoodProceeds(s: WorldState)
  {
    |s.segments| > 0 && s.foodStartPending
  }

  /** The food system's effect on the world: without a snake, or without a waiting
      message, nothing at all; otherwise the message is consumed and one food is
      spawned on the first free cell of the stream, leaving the snake as it was. */
  function FoodInit(s: WorldState, samples: seq<GridPosition>): (r: WorldState)
    requires FoodProceeds(s) ==> HasFree(samples, Positions(s.segments))
    ensures !FoodProceeds(s) ==> r == s
    ensures FoodProceeds(s) ==>
      !r.foodStartPending && |r.foods| == |s.foods| + 1 && r.foods[..|s.foods|] == s.foods
    ensures FoodProceeds(s) ==>
      exists k :: 0 <= k < |samples| && r.foods[|s.foods|] == samples[k] &&
        !Occupied(Positions(s.segments), samples[k]) &&
        forall j :: 0 <= j < k ==> Occupied(Positions(s.segments), samples[j])
    ensures FoodProceeds(s) ==>
      forall i :: 0 <= i < |s.segments| ==> s.segments[i].position != r.foods[|s.foods|]
    ensures r.segments == s.segments && r.snakeStartPending == s.snakeStartPending
  {
    if !FoodProceeds(s) then s
    else
      var k := FirstFree(samples, Positions(s.segments)).value;
      s.(foodStartPending := false, foods := s.foods + [samples[k]])
  }

  /** `initialize_food`: return when there is no snake, then when no message is
      waiting; otherwise clear the reader, collect the occupied cells, draw a free cell
      and spawn the food there. Returns how many cells were drawn from the stream. */
  method InitializeFood(w: World, grid: GridSize, samples: seq<GridPosition>) returns (draws: nat)
    requires AllInGrid(grid, samples)
    requires FoodProceeds(w.State()) ==> HasFree(samples, Positions(w.segments))
    modifies w
    ensures w.State() == FoodInit(old(w.State()), samples)
    ensures !FoodProceeds(old(w.State())) ==> draws == 0
    ensures FoodProceeds(old(w.State())) ==>
      FirstFree(samples, Positions(old(w.segments))) == Some(draws - 1) &&
      InGrid(grid, w.foods[|w.foods| - 1])
  {
    if |w.segments| == 0 {
      return 0;
    }
    if !w.foodStartPending {
      return 0;
    }
    w.foodStartPending := false;
    var occupiedCells := Positions(w.segments);
    var foodPosition;
    foodPosition, draws := SampleFreeCell(grid, occupiedCells, samples);
    w.foods := w.foods + [foodPosition];
  }

  /** Occupied cells at the front of the stream are skipped: the choice is the first
      free cell of what follows them. */
  lemma {:induction false} SkipOccupiedPrefix(
    prefix: seq<GridPosition>, rest: seq<GridPosition>, cells: seq<GridPosition>)
    requires forall k :: 0 <= k < |prefix| ==> Occupied(cells, prefix[k])
    ensures FirstFree(prefix + rest, cells) ==
      match FirstFree(rest, cells)
      case None => None
      case Some(k) => Some(|prefix| + k)
  {
    if prefix != [] {
      assert (prefix + rest)[0] == prefix[0];
      assert (prefix + rest)[1..] == prefix[1..] + rest;
      SkipOccupiedPrefix(prefix[1..], rest, cells);
    } else {
      assert prefix + rest == rest;
    }
  }

  /** The loop reads the stream only up to the first free cell: whatever follows does
      not change the choice. */
  lemma {:induction false} FirstFreeIgnoresLaterSamples(
    samples: seq<GridPosition>, later: seq<GridPosition>, cells: seq<GridPosition>)
    requires HasFree(samples, cells)
    ensures FirstFree(samples + later, cells) == FirstFree(samples, cells)
  {
    var k := FirstFree(samples, cells).value;
    assert (samples + later)[k] == samples[k];
    assert forall j :: 0 <= j < k ==> (samples + later)[j] == samples[j];
  }

  /** On a board whose every cell is occupied no drawable stream holds a free cell,
      so the drawing loop never ends. */
  lemma FullBoardHasNoFreeSample(grid: GridSize, cells: seq<GridPosition>, samples: seq<GridPosition>)
    requires forall p :: InGrid(grid, p) ==> Occupied(cells, p)
    requires AllInGrid(grid, samples)
    ensures !HasFree(samples, cells)
    ensures FirstFree(samples, cells) == None
  {
  }

  /** The game's query hands out the occupied cells in no particular order; the
      occupancy test depends only on which cells they are. */
  lemma OccupiedIgnoresOrder(a: seq<GridPosition>, b: seq<GridPosition>, p: GridPosition)
    requires forall q :: q in a <==> q in b
    ensures Occupied(a, p) == Occupied(b, p)
  {
    OccupiedIsMembership(a, p);
    OccupiedIsMembership(b, p);
  }

  lemma OccupiedIsMembership(cells: seq<GridPosition>, p: GridPosition)
    ensures Occupied(cells, p) <==> p in cells
  {
  }

  /** The choice of food does not depend on the order in which the query yields the
      occupied cells, only on which cells they are. */
  lemma {:induction false} FirstFreeIgnoresOrder(
    samples: seq<GridPosition>, a: seq<GridPosition>, b: seq<GridPosition>)
    requires forall q :: q in a <==> q in b
    ensures FirstFree(samples, a) == FirstFree(samples, b)
  {
    if samples != [] {
      OccupiedIgnoresOrder(a, b, samples[0]);
      FirstFreeIgnoresOrder(samples[1..], a, b);
    }
  }
}
