/** Grid geometry shared by every system: positions on the grid, the grid's size
    resource and its default value (src/core/components.rs, src/core/resources.rs,
    src/core/constants.rs). */
module Core {

  /** Rust's `u32`: every coordinate and size in the game has this width. */
  const U32_LIMIT: int := 0x1_0000_0000
  type U32 = x: int | 0 <= x < U32_LIMIT

  /** Number of cells along each side of the default grid. */
  const GRID_SIZE: U32 := 30
  /** Display size of one cell; only the pixel mapping uses it. */
  const GRID_PIXELS: U32 := 24

  /** The cell an entity occupies. */
  datatype GridPosition = GridPosition(x: U32, y: U32)

  /** Bevy's `UVec2`, used for the grid's dimensions in cells. */
  datatype UVec2 = UVec2(x: U32, y: U32)

  /** The grid resource: width and height in cells, and the cell size in pixels. */
  datatype GridSize = GridSize(size: UVec2, pixels: U32)

  /** `GridSize::default()`: a square grid of GRID_SIZE cells, GRID_PIXELS wide each. */
  function DefaultGrid(): (g: GridSize)
    ensures g.size.x == g.size.y == 30 && g.pixels == 24
  {
    GridSize(UVec2(GRID_SIZE, GRID_SIZE), GRID_PIXELS)
  }

  /** A position lies on the grid when both coordinates are below the grid's size. */
  predicate InGrid(grid: GridSize, p: GridPosition)
  {
    p.x < grid.size.x && p.y < grid.size.y
  }

  /** The stock optional value. */
  datatype Option<T> = None | Some(value: T)
}
