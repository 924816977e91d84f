/** The logical maze of src/Maze.cpp: a row-major grid of cell values
    (0 wall, 1 path), its odd dimensions, the end cell found after
    generation, the wall lookup used for collision and the per-cell
    classification used when drawing. The Kruskal carving itself is an
    input: the model takes whatever grid the generator hands back. */
module MazeGrid {
  import opened Wrappers

  /** Cell values, indexed `grid[z][x]`; the source stores `uint32_t`. */
  type Grid = seq<seq<nat>>

  const WallValue: nat := 0
  const PathValue: nat := 1

  /** A grid coordinate: column `x`, row `z` (a `glm::ivec2(x, z)`). */
  datatype Cell = Cell(x: int, z: int)

  /** The maze object: grid, stored dimensions and `endParams`. */
  datatype Maze = Maze(grid: Grid, width: int, height: int, endParams: Cell)

  /** What the external generator does when asked for a maze: hand back its
      grid, or throw. */
  datatype GeneratorRun = Carved(carved: Grid) | Threw

  /** `height` rows of `width` cells each. */
  predicate Shaped(g: Grid, width: int, height: int) {
    |g| == height && forall z :: 0 <= z < |g| ==> |g[z]| == width
  }

  /** The stored dimensions describe the stored grid, so indexing inside
      them is defined. */
  predicate WellShaped(m: Maze) {
    Shaped(m.grid, m.width, m.height)
  }

  predicate InBounds(m: Maze, x: int, z: int) {
    0 <= x < m.width && 0 <= z < m.height
  }

  /** `c` lies on the grid and holds the path value 1. */
  predicate PathAt(g: Grid, c: Cell) {
    0 <= c.z < |g| && 0 <= c.x < |g[c.z]| && g[c.z][c.x] == PathValue
  }

  ghost predicate HasPath(g: Grid) {
    exists c :: PathAt(g, c)
  }

  /** Strict row-major order: earlier row, or same row and earlier column. */
  predicate Before(a: Cell, b: Cell) {
    a.z < b.z || (a.z == b.z && a.x < b.x)
  }

  /** The least path cell in row-major order. */
  ghost predicate IsFirstPath(g: Grid, c: Cell) {
    PathAt(g, c) && forall d :: PathAt(g, d) ==> !Before(d, c)
  }

  /** The greatest path cell in row-major order. */
  ghost predicate IsLastPath(g: Grid, c: Cell) {
    PathAt(g, c) && forall d :: PathAt(g, d) ==> !Before(c, d)
  }

  /** C's `n % 2`: division truncates toward zero, so the remainder takes
      the sign of `n` (`-3 % 2 == -1`), unlike Dafny's Euclidean `%`. */
  function CRemTwo(n: int): (r: int)
    ensures -1 <= r <= 1
    ensures r == 0 <==> n % 2 == 0
    ensures n >= 0 ==> r >= 0
    ensures n < 0 ==> r <= 0
  {
    if n >= 0 then n % 2 else -((-n) % 2)
  }

  predicate IsInt32(n: int) {
    -0x8000_0000 <= n < 0x8000_0000
  }

  /** The dimension adjustment at the top of `Generate`: an even request
      is incremented, an odd one is kept. The result is always odd (also for
      negative requests, since `-3 % 2 == -1` in C), at least 1 for a
      non-negative request, and never overflows an `int`. */
  function RoundOdd(n: int): (r: int)
    ensures r % 2 == 1
    ensures r == n || r == n + 1
    ensures r == n <==> n % 2 == 1
    ensures n >= 0 ==> r >= 1
    ensures IsInt32(n) ==> IsInt32(r)
  {
    if CRemTwo(n) == 0 then n + 1 else n
  }

  /** Reverse scan of one row: the greatest column below `n` holding 1. */
  function LastPathInRow(row: seq<nat>, n: nat): (r: Option<nat>)
    requires n <= |row|
    ensures r.Some? ==> r.value < n && row[r.value] == PathValue
    ensures r.Some? ==> forall x :: r.value < x < n ==> row[x] != PathValue
    ensures r.None? ==> forall x :: 0 <= x < n ==> row[x] != PathValue
  {
    if n == 0 then None
    else if row[n - 1] == PathValue then Some(n - 1)
    else LastPathInRow(row, n - 1)
  }

  /** Reverse row-major scan of rows `z-1` down to 0. */
  function LastPathBelow(g: Grid, width: nat, z: nat): (r: Option<Cell>)
    requires Shaped(g, width, |g|) && z <= |g|
    ensures r.Some? ==> PathAt(g, r.value) && r.value.z < z
    ensures r.Some? ==> forall d :: PathAt(g, d) && d.z < z ==> !Before(r.value, d)
    ensures r.None? ==> forall d :: PathAt(g, d) ==> d.z >= z
  {
    if z == 0 then None
    else
      match LastPathInRow(g[z - 1], width)
      case Some(x) => Some(Cell(x, z - 1))
      case None => LastPathBelow(g, width, z - 1)
  }

  /** The end-cell search of `Generate`: scanning rows from the last one
      and columns from the last one, the first cell holding 1. That is the
      greatest path cell in row-major order, and there is none only when
      the grid has no path cell. */
  function FindEnd(g: Grid, width: nat, height: nat): (r: Option<Cell>)
    requires Shaped(g, width, height)
    ensures r.Some? ==> IsLastPath(g, r.value)
    ensures r.None? <==> !HasPath(g)
  {
    var r := LastPathBelow(g, width, height);
    assert r.Some? ==> PathAt(g, r.value);
    r
  }

  /** `Maze::Generate(w, h)` given the generator's behaviour. The dimensions
      are rounded and stored before the generator runs, so they hold the
      new values even when it throws (the exception is caught and only
      logged); then the grid and `endParams` keep their previous values. A
      carved grid replaces the old one, and `endParams` becomes its last
      path cell, or stays as it was when the grid has none. The carved grid
      is required to have the rounded shape, which the end scan indexes. */
  function Generate(prior: Maze, w: int, h: int, run: GeneratorRun): (m: Maze)
    requires run.Carved? ==> Shaped(run.carved, RoundOdd(w), RoundOdd(h))
    ensures m.width == RoundOdd(w) && m.height == RoundOdd(h)
    ensures run.Threw? ==> m.grid == prior.grid && m.endParams == prior.endParams
    ensures run.Carved? ==> m.grid == run.carved && WellShaped(m)
    ensures run.Carved? && HasPath(run.carved) ==> IsLastPath(m.grid, m.endParams)
    ensures run.Carved? && !HasPath(run.carved) ==> m.endParams == prior.endParams
  {
    var width := RoundOdd(w);
    var height := RoundOdd(h);
    match run
    case Threw => Maze(prior.grid, width, height, prior.endParams)
    case Carved(g) =>
      assert |g| > 0 && |g[0]| == width;
      var end := FindEnd(g, width, height).GetOr(prior.endParams);
      Maze(g, width, height, end)
  }

  /** The last path cell is unique. */
  lemma LastPathUnique(g: Grid, a: Cell, b: Cell)
    requires IsLastPath(g, a) && IsLastPath(g, b)
    ensures a == b
  {
    assert !Before(a, b) && !Before(b, a);
  }

  /** `IsWall` on grid indices (the float-to-index conversion is not part of
      this model): anything off the grid is a wall, and on the grid a cell
      is a wall exactly when it holds 0. */
  function IsWall(m: Maze, gx: int, gz: int): (wall: bool)
    requires WellShaped(m)
    ensures !InBounds(m, gx, gz) ==> wall
    ensures InBounds(m, gx, gz) ==> (wall <==> m.grid[gz][gx] == WallValue)
  {
    if gx < 0 || gx >= m.width || gz < 0 || gz >= m.height then true
    else m.grid[gz][gx] == WallValue
  }

  /** Every cell value is 0 or 1, as the generator's grids are. */
  predicate Binary(g: Grid) {
    forall z, x :: 0 <= z < |g| && 0 <= x < |g[z]| ==> g[z][x] == WallValue || g[z][x] == PathValue
  }

  /** On a 0/1 grid, the cells `IsWall` lets a mover into are exactly the
      path cells. */
  lemma NotWallIffPath(m: Maze, gx: int, gz: int)
    requires WellShaped(m) && Binary(m.grid)
    ensures !IsWall(m, gx, gz) <==> PathAt(m.grid, Cell(gx, gz))
  {
  }

  /** How `Draw` renders one cell. */
  datatype CellKind = WallBlock | EndFloor | Floor

  /** The branch `Draw` takes for cell `(x, z)`: a 0 is a wall block even at
      the end cell; otherwise the end cell is the green end floor and every
      other cell plain floor. */
  function Classify(m: Maze, x: int, z: int): (k: CellKind)
    requires WellShaped(m) && InBounds(m, x, z)
    ensures k == WallBlock <==> m.grid[z][x] == WallValue
    ensures k == EndFloor <==> m.grid[z][x] != WallValue && Cell(x, z) == m.endParams
    ensures k == Floor <==> m.grid[z][x] != WallValue && Cell(x, z) != m.endParams
  {
    if m.grid[z][x] == WallValue then WallBlock
    else if x == m.endParams.x && z == m.endParams.z then EndFloor
    else Floor
  }

  /** The whole pass of `Draw`: one entry per cell, rows `z` outer and
      columns `x` inner, each the class of its cell. */
  function DrawPlan(m: Maze): (plan: seq<seq<CellKind>>)
    requires WellShaped(m)
    ensures |plan| == m.height
    ensures forall z :: 0 <= z < |plan| ==> |plan[z]| == m.width
    ensures forall z, x :: 0 <= z < m.height && 0 <= x < m.width ==> plan[z][x] == Classify(m, x, z)
  {
    seq(m.height, z requires 0 <= z < m.height =>
      seq(|m.grid[z]|, x requires 0 <= x < |m.grid[z]| => Classify(m, x, z)))
  }

  /** Drawing and collision agree: a cell is drawn as a wall block exactly
      when `IsWall` blocks it. */
  lemma DrawWallsAreCollisionWalls(m: Maze, x: int, z: int)
    requires WellShaped(m) && InBounds(m, x, z)
    ensures DrawPlan(m)[z][x] == WallBlock <==> IsWall(m, x, z)
  {
  }

  /** After generating a grid that has a path cell, exactly one cell is
      drawn as the end floor: the last path cell in row-major order. */
  lemma GeneratedEndDrawnOnce(prior: Maze, w: int, h: int, g: Grid, x: int, z: int)
    requires Shaped(g, RoundOdd(w), RoundOdd(h)) && HasPath(g)
    requires InBounds(Generate(prior, w, h, Carved(g)), x, z)
    ensures Classify(Generate(prior, w, h, Carved(g)), x, z) == EndFloor <==> IsLastPath(g, Cell(x, z))
  {
    var m := Generate(prior, w, h, Carved(g));
    if IsLastPath(g, Cell(x, z)) {
      LastPathUnique(g, Cell(x, z), m.endParams);
    }
  }
}
