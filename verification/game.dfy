/** The game logic of src/Game.cpp that does not touch the GPU: the key
    array reset in the constructor, the start-cell search of `Init`, the
    collision helper and the axis-by-axis movement of `ProcessInput`.
    Positions and displacements are floats, an abstract type `F` with the
    float operations passed in. */
module GameLogic {
  import opened Wrappers
  import opened MazeGrid
  import opened InputCallbacks

  /** The maze size `Init` asks for. */
  const InitialMazeSize: int := 15

  /** The constructor's key array: all 1024 entries released. */
  function NewKeys(): (keys: seq<bool>)
    ensures IsKeyArray(keys)
    ensures forall i :: 0 <= i < |keys| ==> !keys[i]
  {
    seq(KeyCount, _ => false)
  }

  /** A fresh game's keys follow the events alone: after any sequence of
      key events a key is held exactly when its latest press or release was
      a press, and a key never pressed is released. */
  lemma {:induction false} FreshKeysFollowEvents(events: seq<KeyEvent>, k: int)
    requires 0 <= k < KeyCount
    ensures ApplyKeyEvents(NewKeys(), events)[k] == LastPressOrRelease(events, k, false)
  {
    KeyStateIsLatestPressOrRelease(NewKeys(), events, k);
  }

  /** The two camera poses `Init` can leave: the overview camera created
      first (position (15, 20, 15), pitch -89, looking down), or a camera
      standing at a cell (position (x * cellSize, 0.5, z * cellSize),
      pitch 0). */
  datatype Camera = Overview | Standing(cell: Cell)

  /** The forward row-major scan of `Init`: rows from 0, columns from 0,
      stopping at the first cell holding 1. It finds a cell exactly when
      the grid has a path cell, and that cell is the least one. */
  method FindStart(g: Grid, width: int, height: int) returns (found: bool, start: Cell)
    requires Shaped(g, width, height)
    ensures found <==> HasPath(g)
    ensures found ==> IsFirstPath(g, start)
  {
    found := false;
    start := Cell(0, 0);
    var z := 0;
    while z < height && !found
      invariant 0 <= z <= height
      invariant !found ==> forall d :: PathAt(g, d) ==> d.z >= z
      invariant found ==> IsFirstPath(g, start)
      decreases height - z, if found then 0 else 1
    {
      assert |g[z]| == width;
      var x := 0;
      while x < width && !found
        invariant 0 <= x <= width
        invariant !found ==> forall d :: PathAt(g, d) ==> d.z > z || (d.z == z && d.x >= x)
        invariant found ==> IsFirstPath(g, start)
        decreases width - x, if found then 0 else 1
      {
        if g[z][x] == PathValue {
          found := true;
          start := Cell(x, z);
        } else {
          x := x + 1;
        }
      }
      if !found {
        z := z + 1;
      }
    }
  }

  /** `c` lies in the top-left `width` x `height` window of the grid. */
  predicate InWindow(c: Cell, width: int, height: int) {
    0 <= c.x < width && 0 <= c.z < height
  }

  ghost predicate HasPathWithin(g: Grid, width: int, height: int) {
    exists c :: PathAt(g, c) && InWindow(c, width, height)
  }

  /** The least path cell in row-major order among those in the window. */
  ghost predicate IsFirstPathWithin(g: Grid, width: int, height: int, c: Cell) {
    PathAt(g, c) && InWindow(c, width, height) &&
    forall d :: PathAt(g, d) && InWindow(d, width, height) ==> !Before(d, c)
  }

  /** When the stored dimensions describe the grid, the window is the whole
      grid: a path cell in it is any path cell, and the first one is the
      first of the grid. */
  lemma WindowOfShapedGrid(g: Grid, width: int, height: int, c: Cell)
    requires Shaped(g, width, height)
    ensures HasPathWithin(g, width, height) <==> HasPath(g)
    ensures IsFirstPathWithin(g, width, height, c) <==> IsFirstPath(g, c)
  {
    assert forall d :: PathAt(g, d) ==> InWindow(d, width, height);
  }

  /** The start-cell scan bounded by the grid as well as by the stored
      dimensions: rows below `height` that exist, columns below `width`
      that exist. It needs nothing of its caller, and it finds the first
      path cell of the window whenever there is one. */
  method FindStartWithin(g: Grid, width: int, height: int) returns (found: bool, start: Cell)
    ensures found <==> HasPathWithin(g, width, height)
    ensures found ==> IsFirstPathWithin(g, width, height, start)
  {
    found := false;
    start := Cell(0, 0);
    var z := 0;
    while z < height && z < |g| && !found
      invariant 0 <= z
      invariant !found ==> forall d :: PathAt(g, d) && InWindow(d, width, height) ==> d.z >= z
      invariant found ==> IsFirstPathWithin(g, width, height, start)
      decreases |g| - z, if found then 0 else 1
    {
      var x := 0;
      while x < width && x < |g[z]| && !found
        invariant 0 <= x
        invariant !found ==> forall d :: PathAt(g, d) && InWindow(d, width, height) ==>
                                d.z > z || (d.z == z && d.x >= x)
        invariant found ==> IsFirstPathWithin(g, width, height, start)
        decreases |g[z]| - x, if found then 0 else 1
      {
        if g[z][x] == PathValue {
          found := true;
          start := Cell(x, z);
        } else {
          x := x + 1;
        }
      }
      if !found {
        z := z + 1;
      }
    }
  }

  /** The maze `Init` scans when the generator throws on its first request:
      the constructor left the grid empty, yet `Generate` has already
      stored the dimensions 15 x 15, so the scan's first lookup, row 0,
      lies outside the grid and `Init`'s precondition does not hold. */
  lemma InitAfterThrowScansMissingGrid(created: Maze)
    requires |created.grid| == 0
    ensures var m := Generate(created, InitialMazeSize, InitialMazeSize, Threw);
            m.width == InitialMazeSize && m.height == InitialMazeSize &&
            0 < m.height && 0 < m.width && |m.grid| == 0 && !WellShaped(m)
  {
  }

  /** `Init` with the start-cell scan bounded by the grid. A carved grid is
      scanned exactly as before; after a throw the scan reads only rows
      that exist, so on the constructor's empty grid nothing is found and
      the overview camera stays. */
  method InitGuarded(created: Maze, run: GeneratorRun) returns (maze: Maze, foundStart: bool, camera: Camera)
    requires run.Carved? ==> Shaped(run.carved, InitialMazeSize, InitialMazeSize)
    ensures maze == Generate(created, InitialMazeSize, InitialMazeSize, run)
    ensures foundStart <==> HasPathWithin(maze.grid, InitialMazeSize, InitialMazeSize)
    ensures foundStart ==> camera.Standing? && IsFirstPathWithin(maze.grid, InitialMazeSize, InitialMazeSize, camera.cell)
    ensures !foundStart ==> camera == Overview
    ensures WellShaped(maze) ==> (foundStart <==> HasPath(maze.grid))
    ensures WellShaped(maze) && foundStart ==> IsFirstPath(maze.grid, camera.cell)
    ensures run.Threw? && |created.grid| == 0 ==> !foundStart && camera == Overview
  {
    maze := Generate(created, InitialMazeSize, InitialMazeSize, run);
    camera := Overview;
    var start;
    foundStart, start := FindStartWithin(maze.grid, maze.width, maze.height);
    if foundStart {
      camera := Standing(start);
    }
    if WellShaped(maze) {
      WindowOfShapedGrid(maze.grid, maze.width, maze.height, start);
    }
  }

  /** `Init`'s maze set-up: generate a 15 x 15 maze, then move the camera to
      the first path cell, or keep the overview camera (and only log) when
      the grid has none. The scan indexes the stored grid with the stored
      dimensions, so they must describe it. */
  method Init(created: Maze, run: GeneratorRun) returns (maze: Maze, foundStart: bool, camera: Camera)
    requires run.Carved? ==> Shaped(run.carved, InitialMazeSize, InitialMazeSize)
    requires WellShaped(Generate(created, InitialMazeSize, InitialMazeSize, run))
    ensures maze == Generate(created, InitialMazeSize, InitialMazeSize, run)
    ensures maze.width == InitialMazeSize && maze.height == InitialMazeSize
    ensures foundStart <==> HasPath(maze.grid)
    ensures foundStart ==> camera.Standing? && IsFirstPath(maze.grid, camera.cell)
    ensures !foundStart ==> camera == Overview
  {
    maze := Generate(created, InitialMazeSize, InitialMazeSize, run);
    camera := Overview;
    var start;
    foundStart, start := FindStart(maze.grid, maze.width, maze.height);
    if foundStart {
      camera := Standing(start);
    }
  }

  /** The start cell never comes after the end cell in row-major order. */
  lemma StartNotAfterEnd(g: Grid, start: Cell, end: Cell)
    requires IsFirstPath(g, start) && IsLastPath(g, end)
    ensures start == end || Before(start, end)
  {
    assert !Before(end, start);
  }

  /** With two different path cells, start and end are different cells. */
  lemma StartDiffersFromEnd(g: Grid, start: Cell, end: Cell, a: Cell, b: Cell)
    requires IsFirstPath(g, start) && IsLastPath(g, end)
    requires PathAt(g, a) && PathAt(g, b) && a != b
    ensures start != end
  {
  }

  /** The four movement directions `ProcessInput` reads from the keys. */
  datatype Intent = Intent(forward: bool, backward: bool, left: bool, right: bool)

  /** W or Up moves forward, S or Down back, A or Left left, D or Right right. */
  function MoveIntent(keys: seq<bool>): (i: Intent)
    requires IsKeyArray(keys)
    ensures i.forward <==> keys[KeyW] || keys[KeyUp]
    ensures i.backward <==> keys[KeyS] || keys[KeyDown]
    ensures i.left <==> keys[KeyA] || keys[KeyLeft]
    ensures i.right <==> keys[KeyD] || keys[KeyRight]
  {
    Intent(keys[KeyW] || keys[KeyUp], keys[KeyS] || keys[KeyDown],
           keys[KeyA] || keys[KeyLeft], keys[KeyD] || keys[KeyRight])
  }

  /** The proposed displacement: starting from zero, add the scaled front
      vector for forward, subtract it for back, subtract the scaled right
      vector for left and add it for right, in that order. */
  function ProposedMove<V>(keys: seq<bool>, zero: V, plus: (V, V) -> V, minus: (V, V) -> V,
                           front: V, right: V): (move: V)
    requires IsKeyArray(keys)
    ensures (!keys[KeyW] && !keys[KeyUp] && !keys[KeyS] && !keys[KeyDown] &&
             !keys[KeyA] && !keys[KeyLeft] && !keys[KeyD] && !keys[KeyRight]) ==> move == zero
  {
    var intent := MoveIntent(keys);
    var m0 := zero;
    var m1 := if intent.forward then plus(m0, front) else m0;
    var m2 := if intent.backward then minus(m1, front) else m1;
    var m3 := if intent.left then minus(m2, right) else m2;
    if intent.right then plus(m3, right) else m3
  }

  /** Two key arrays that agree on the eight movement keys propose the same
      displacement: no other key influences movement. */
  lemma {:induction false} OnlyMovementKeysMove<V>(k1: seq<bool>, k2: seq<bool>, zero: V,
                                                   plus: (V, V) -> V, minus: (V, V) -> V, front: V, right: V)
    requires IsKeyArray(k1) && IsKeyArray(k2)
    requires k1[KeyW] == k2[KeyW] && k1[KeyUp] == k2[KeyUp]
    requires k1[KeyS] == k2[KeyS] && k1[KeyDown] == k2[KeyDown]
    requires k1[KeyA] == k2[KeyA] && k1[KeyLeft] == k2[KeyLeft]
    requires k1[KeyD] == k2[KeyD] && k1[KeyRight] == k2[KeyRight]
    ensures ProposedMove(k1, zero, plus, minus, front, right) == ProposedMove(k2, zero, plus, minus, front, right)
  {
    assert MoveIntent(k1) == MoveIntent(k2);
  }

  /** A world-space point or displacement. */
  datatype Vec3<F> = Vec3(x: F, y: F, z: F)

  /** `CheckCollision`: with no maze nothing blocks; otherwise the target's
      x and z, converted to grid indices by `toGrid` (the float rounding of
      `IsWall`, not modelled), are looked up with `IsWall`. */
  function CheckCollision<F>(maze: Option<Maze>, target: Vec3<F>, toGrid: F -> int): (blocked: bool)
    requires maze.Some? ==> WellShaped(maze.value)
    ensures maze.None? ==> !blocked
    ensures maze.Some? ==> (blocked <==> IsWall(maze.value, toGrid(target.x), toGrid(target.z)))
  {
    match maze
    case None => false
    case Some(m) => IsWall(m, toGrid(target.x), toGrid(target.z))
  }

  /** The target's height never matters to collision. */
  lemma CollisionIgnoresHeight<F>(maze: Option<Maze>, p: Vec3<F>, q: Vec3<F>, toGrid: F -> int)
    requires maze.Some? ==> WellShaped(maze.value)
    requires p.x == q.x && p.z == q.z
    ensures CheckCollision(maze, p, toGrid) == CheckCollision(maze, q, toGrid)
  {
  }

  /** The position update of `ProcessInput` for a proposed displacement.
      The X step is tried first, at the old z; it is committed only if that
      target is not blocked. The Z step is then tried at the x just decided.
      Finally the height is locked to `eyeHeight` (0.5). `add` is float
      addition. */
  function ProcessInput<F>(maze: Option<Maze>, pos: Vec3<F>, move: Vec3<F>,
                           add: (F, F) -> F, toGrid: F -> int, eyeHeight: F): (next: Vec3<F>)
    requires maze.Some? ==> WellShaped(maze.value)
    ensures next.y == eyeHeight
    ensures !CheckCollision(maze, Vec3(add(pos.x, move.x), pos.y, pos.z), toGrid) ==> next.x == add(pos.x, move.x)
    ensures CheckCollision(maze, Vec3(add(pos.x, move.x), pos.y, pos.z), toGrid) ==> next.x == pos.x
    ensures !CheckCollision(maze, Vec3(next.x, pos.y, add(pos.z, move.z)), toGrid) ==> next.z == add(pos.z, move.z)
    ensures CheckCollision(maze, Vec3(next.x, pos.y, add(pos.z, move.z)), toGrid) ==> next.z == pos.z
  {
    var xTarget := add(pos.x, move.x);
    var x := if CheckCollision(maze, Vec3(xTarget, pos.y, pos.z), toGrid) then pos.x else xTarget;
    var zTarget := add(pos.z, move.z);
    var z := if CheckCollision(maze, Vec3(x, pos.y, zTarget), toGrid) then pos.z else zTarget;
    Vec3(x, eyeHeight, z)
  }

  /** Movement never ends inside a wall: a player standing on a cell that
      `IsWall` lets through is still on such a cell after any update, since
      each axis step is committed only onto a free cell. */
  lemma ProcessInputStaysOffWalls<F>(m: Maze, pos: Vec3<F>, move: Vec3<F>,
                                     add: (F, F) -> F, toGrid: F -> int, eyeHeight: F)
    requires WellShaped(m)
    requires !IsWall(m, toGrid(pos.x), toGrid(pos.z))
    ensures var next := ProcessInput(Some(m), pos, move, add, toGrid, eyeHeight);
            !IsWall(m, toGrid(next.x), toGrid(next.z))
  {
    var next := ProcessInput(Some(m), pos, move, add, toGrid, eyeHeight);
    assert !IsWall(m, toGrid(next.x), toGrid(pos.z));
  }

  /** Without a maze every proposed displacement is applied in full. */
  lemma ProcessInputWithoutMazeMovesFreely<F>(pos: Vec3<F>, move: Vec3<F>,
                                              add: (F, F) -> F, toGrid: F -> int, eyeHeight: F)
    ensures ProcessInput(None, pos, move, add, toGrid, eyeHeight) ==
            Vec3(add(pos.x, move.x), eyeHeight, add(pos.z, move.z))
  {
  }
}
