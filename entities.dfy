/** The part of the ECS world the two initialisation systems see: the snake-segment
    entities, the food entities and, for each system, whether a game-start message is
    waiting in its own message reader. */
module Entities {
  import opened Core

  /** An entity carrying a `GridPosition` and a `SnakeSegment { index }` component. */
  datatype Segment = Segment(index: U32, position: GridPosition)

  /** The world as a value: what `World` holds at one moment. */
  datatype WorldState = WorldState(
    segments: seq<Segment>,
    foods: seq<GridPosition>,
    snakeStartPending: bool,
    foodStartPending: bool)

  /** The world before any entity is spawned or any message is written. */
  const EmptyWorld: WorldState := WorldState([], [], false, false)

  /** The positions of the snake's segments, as the food system collects them. */
  function Positions(segments: seq<Segment>): (ps: seq<GridPosition>)
    ensures |ps| == |segments|
    ensures forall i :: 0 <= i < |segments| ==> ps[i] == segments[i].position
  {
    if segments == [] then [] else [segments[0].position] + Positions(segments[1..])
  }

  /** The mutable world the systems run against. Spawning appends an entity to the
      sequence of its kind; the two flags are the two systems' message cursors. */
  class World {
    var segments: seq<Segment>
    var foods: seq<GridPosition>
    var snakeStartPending: bool
    var foodStartPending: bool

    constructor ()
      ensures State() == EmptyWorld
    {
      segments, foods := [], [];
      snakeStartPending, foodStartPending := false, false;
    }

    /** The world's current value. */
    function State(): (s: WorldState)
      reads this
    {
      WorldState(segments, foods, snakeStartPending, foodStartPending)
    }
  }
}
