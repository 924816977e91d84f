# Maze game core in Dafny

A model of the non-graphical core of a small C++/OpenGL first-person maze
game. The model covers:

- **The maze grid** (`MazeGrid`, src/Maze.cpp). `Generate` rounds the
  requested size up to odd numbers, takes the grid the external Kruskal
  generator produces, and finds the end cell with a reverse row-major scan.
  `IsWall` is the wall lookup on grid indices. `Draw` classifies each cell as
  a wall block, the end floor or plain floor.
- **The game logic around it** (`GameLogic`, src/Game.cpp):
  - the constructor's key-array reset;
  - the forward scan in `Init` that places the camera on the first path cell;
  - `CheckCollision`;
  - the axis-by-axis position update of `ProcessInput`.
- **The model loaders** (`ObjLoader`, `MtlLoader`, src/Objloader.cpp).
  - `loadOBJ` splits each line into words and parses face words with the
    `sscanf` patterns `%d/%d/%d`, `%d//%d`, `%d/%d` and `%d`, tried in that
    order. It collects 0-based index lists and assembles the output arrays.
  - `loadMTL` is a line-by-line state machine over a current material name
    and the material table.
- **Texture binding in `Mesh::Draw`** (`MeshDraw`, include/Mesh.hpp):
  - the per-type 1-based sampler counters and the uniform names they build;
  - the unit each texture is bound to;
  - the `texture1` fallback;
  - the choice between an indexed and a non-indexed draw.
- **The GLFW callbacks of both executables** (`InputCallbacks`, src/main.cpp
  and src/main_client.cpp). The key callback keeps a 1024-entry key array;
  only the host closes the window on ESC. The cursor callback has a
  `firstMouse` latch.

Supporting modules:

- `Wrappers` provides `Option`.
- `Decimal` models `std::to_string` on naturals.
- `TextScan` models the whitespace word splitting of `istringstream >>` and
  the `%d` and literal-character directives of `sscanf`. Its `Scan` returns
  the values converted before the first failure; end of input counts as
  zero conversions.

C semantics are written out where they matter:

- `%` truncates toward zero (`CRemTwo`).
- Index arithmetic is unsigned and wraps modulo 2^32 (`ZeroBased`).
- `std::map::operator[]` inserts a default entry (`CurrentEntry`).
- A failed string extraction leaves the target string unchanged
  (`NewmtlName`, `TokenOr`).

Floats (positions, displacements, colours, texture coordinates) are
abstract type parameters. The float operations the code performs (addition,
subtraction, world-to-grid conversion, number parsing) are passed in as
functions.

Errors are only logged:

- A generator exception is caught and logged, and the new (rounded)
  dimensions stay stored.
- A grid without a path cell leaves `endParams` at its previous value.
- `Init` logs when it finds no start cell and keeps the overview camera.

## Model

| member | source | states |
|---|---|---|
| MazeGrid.CRemTwo | src/Maze.cpp:6-9 | C's `n % 2` is 0 exactly for even `n` and takes the sign of `n`, so an odd negative request gives -1, not 1 |
| MazeGrid.RoundOdd | src/Maze.cpp:6-12 | the stored dimension is odd, equals the request or the request plus one, is unchanged exactly when the request is odd, is at least 1 for a non-negative request, and stays within `int` |
| MazeGrid.LastPathInRow | src/Maze.cpp:29-33 | the inner reverse scan returns the greatest column below the bound holding 1, with no 1 between it and the bound; it returns none when the row prefix has no 1 |
| MazeGrid.LastPathBelow | src/Maze.cpp:28-35 | the reverse row-major scan of the rows below `z` returns a path cell that no path cell below `z` follows; it returns none when every path cell lies at row `z` or later |
| MazeGrid.FindEnd | src/Maze.cpp:28-35 | the end search returns the greatest path cell in row-major order, and returns nothing exactly when the grid has no cell holding 1 |
| MazeGrid.Generate | src/Maze.cpp:4-42 | the width and height become the odd-rounded requests even when the generator throws; a throw keeps the old grid and `endParams`; a carved grid is installed, and `endParams` becomes its last path cell, or stays unchanged when there is none |
| MazeGrid.LastPathUnique | src/Maze.cpp:28-35 | the end cell the scan can pick is unique |
| MazeGrid.IsWall | src/Maze.cpp:91-98 | an index outside `[0,width) x [0,height)` is a wall; inside, a cell is a wall exactly when it holds 0 |
| MazeGrid.NotWallIffPath | src/Maze.cpp:92-98 | on a 0/1 grid, `IsWall` lets a mover onto exactly the path cells |
| MazeGrid.Classify | src/Maze.cpp:63-80 | every cell falls in exactly one class: a wall block exactly when it holds 0 (even at the end cell), the end floor exactly when it is non-zero and the end cell, plain floor otherwise |
| MazeGrid.DrawPlan | src/Maze.cpp:46-82 | the draw pass visits `height` rows of `width` cells and gives each cell its own class |
| MazeGrid.DrawWallsAreCollisionWalls | src/Maze.cpp:63-98 | a cell is drawn as a wall exactly when `IsWall` blocks it |
| MazeGrid.GeneratedEndDrawnOnce | src/Maze.cpp:28-80 | after generating a grid with a path, exactly one cell is drawn green: the last path cell |
| GameLogic.NewKeys | src/Game.cpp:20-21 | the constructor leaves all 1024 keys released |
| GameLogic.FreshKeysFollowEvents | src/Game.cpp:20-21 | in a fresh game, a key is held after any event sequence exactly when its latest press or release was a press, and released if it had none |
| GameLogic.FindStart | src/Game.cpp:183-198 | the forward scan finds a cell exactly when the grid has a path cell, and the cell it finds is the least path cell in row-major order |
| GameLogic.Init | src/Game.cpp:180-201 | `Init` generates a 15 x 15 maze; the camera stands on the first path cell when there is one and otherwise stays the overview camera, with `foundStart` false |
| GameLogic.WindowOfShapedGrid | src/Game.cpp:184-185 | when the stored dimensions describe the grid, the scanned window is the whole grid, so its first path cell is the grid's |
| GameLogic.FindStartWithin | src/Game.cpp:184-194 | a scan bounded by the grid as well as the dimensions finds a cell exactly when the window has a path cell, and finds the window's first one |
| GameLogic.InitAfterThrowScansMissingGrid | src/Game.cpp:180-186 | after a throw on the first `Generate(15, 15)` the dimensions are 15 x 15 while the constructor's grid is empty, so the scan's first row lookup lies outside the grid |
| GameLogic.InitGuarded | src/Game.cpp:180-201 | with the bounded scan, `Init` behaves as before on every carved grid, and after a throw on the constructor's empty grid it finds no start and keeps the overview camera |
| GameLogic.StartNotAfterEnd | src/Game.cpp:184-194 | the start cell equals the end cell or precedes it in row-major order |
| GameLogic.StartDiffersFromEnd | src/Game.cpp:184-194 | with at least two path cells, start and end differ |
| GameLogic.MoveIntent | src/Game.cpp:533-540 | W or Up means forward, S or Down back, A or Left left, D or Right right |
| GameLogic.ProposedMove | src/Game.cpp:531-540 | with no movement key held the proposed displacement is zero |
| GameLogic.OnlyMovementKeysMove | src/Game.cpp:531-540 | key arrays that agree on the eight movement keys propose the same displacement |
| GameLogic.CheckCollision | src/Game.cpp:510-515 | with no maze nothing is blocked; otherwise the target is blocked exactly when `IsWall` holds at its x and z |
| GameLogic.CollisionIgnoresHeight | src/Game.cpp:510-515 | two targets with the same x and z collide alike, whatever their heights |
| GameLogic.ProcessInput | src/Game.cpp:542-557 | the X step is committed exactly when the X-shifted target at the old z is free; the Z step is committed exactly when the Z-shifted target at the already-decided x is free; the height ends at the eye height |
| GameLogic.ProcessInputStaysOffWalls | src/Game.cpp:542-554 | a player on a free cell is on a free cell after any update |
| GameLogic.ProcessInputWithoutMazeMovesFreely | src/Game.cpp:542-557 | with no maze the whole displacement is applied |
| InputCallbacks.RecordKey | src/main.cpp:117-122 | for a key in `[0,1024)`, a press sets it and a release clears it; any other action and any out-of-range key leave the array unchanged; no other entry ever changes |
| InputCallbacks.HostKeyEvent | src/main.cpp:110-123 | the host requests window close exactly on an ESC press, and records every event with the same key update |
| InputCallbacks.ClientKeyEvent | src/main_client.cpp:144-156 | the client makes the same key update as the host, records an ESC press in the array, and never closes the window |
| InputCallbacks.KeyStateIsLatestPressOrRelease | src/main.cpp:117-122 | after any event sequence, each key holds the state of its latest press or release, or its initial state if it had none |
| InputCallbacks.InitialMouse | src/main.cpp:19-21 | the cursor latch starts set |
| InputCallbacks.MouseMove | src/main.cpp:125-143 | the first event seeds the last position from itself, so both offsets come from the event's own position; later events measure x from the last position and y reversed; afterwards the last position is the event's and the latch is clear (the client's callback at src/main_client.cpp:158-176 is identical) |
| InputCallbacks.MouseLatchNeverReset | src/main_client.cpp:162-173 | the latch is still set after a sequence of events only when the sequence is empty, and after any event the last position is the latest event's |
| Decimal.NatToString | include/Mesh.hpp:89-100 | `std::to_string` of a counter is a non-empty digit string whose decimal value is the counter; it has one digit exactly below 10, and a longer one never starts with 0 |
| Decimal.NatToStringInjective | include/Mesh.hpp:89-100 | distinct counters get distinct digit strings |
| TextScan.WordLength | src/Objloader.cpp:15-17 | a word extraction reads the longest run of non-whitespace characters |
| TextScan.Tokens | src/Objloader.cpp:60-63 | the line's words contain no whitespace and are non-empty |
| TextScan.TokensSkipSpace | src/Objloader.cpp:15-17 | leading whitespace never changes the words of a line |
| TextScan.TokensWordThenSpace | src/Objloader.cpp:15-17 | a word followed by whitespace is the line's first word, and the remaining words are those of the rest of the line |
| TextScan.TokensUnwords | src/Objloader.cpp:60-63 | splitting words joined by single spaces gives those words back |
| TextScan.ScanInt | src/Objloader.cpp:97 | a `%d` that converts consumes at least one character and no more than the input; it fails at once on a first character that is none of whitespace, sign or digit |
| TextScan.ScanIntSkipsSpace | src/Objloader.cpp:97 | leading whitespace before a `%d` does not change its success or its value, and is consumed along with the number |
| TextScan.ScanIntOfSignedNat | src/Objloader.cpp:97 | a `%d` over optional whitespace, an optional `+` or `-` and the decimal digits of a natural reads back that natural, negated for `-`, and consumes exactly the whitespace, the sign and the digits |
| TextScan.Scan | src/Objloader.cpp:97-119 | `sscanf` returns at most as many values as the format has conversions |
| TextScan.ScanIntConvOfNat | src/Objloader.cpp:97 | a `%d` reads back the decimal digits of a natural and leaves the rest of the input to the next directive |
| TextScan.ScanLitMatch | src/Objloader.cpp:105 | a literal directive consumes exactly its character |
| ObjLoader.ParseFaceWord | src/Objloader.cpp:96-119 | a face word yields no corner exactly when even the bare `%d` pattern fails |
| ObjLoader.RoundTripFull | src/Objloader.cpp:97-103 | `a/b/c` parses to vertex a, UV b and normal c |
| ObjLoader.RoundTripNormal | src/Objloader.cpp:105-109 | `a//c` fails the first pattern and parses to vertex a and normal c, with no UV |
| ObjLoader.RoundTripUv | src/Objloader.cpp:111-115 | `a/b` fails the first two patterns and parses to vertex a and UV b, with no normal |
| ObjLoader.RoundTripVertex | src/Objloader.cpp:117-119 | bare `a` fails the slash patterns and parses to vertex a only |
| ObjLoader.ParseFormatRoundTrip | src/Objloader.cpp:96-119 | each of the four face-word forms parses back to exactly the indices it was written from, so the fixed trial order never confuses two forms |
| ObjLoader.FormatIsWord | src/Objloader.cpp:82-83 | a written face word is a single word of its line |
| ObjLoader.ZeroBased | src/Objloader.cpp:122-137 | the stored index is the parsed 1-based index minus one, computed modulo 2^32, so index 0 wraps to 2^32 - 1 |
| ObjLoader.AddFace | src/Objloader.cpp:80-137 | a face line appends exactly three 0-based vertex indices; it appends three UV indices exactly when the face has UVs and three normal indices exactly when it has normals; the payload lists are untouched |
| ObjLoader.ObjLine | src/Objloader.cpp:65-138 | a `v`, `vt` or `vn` line appends the payload read from its remaining words to its own list and changes no other list; an `f` line adds a face; any other line changes nothing |
| ObjLoader.ParseObj | src/Objloader.cpp:60-139 | over a whole file the index lists hold whole triples, and UV and normal indices never outnumber vertex indices |
| ObjLoader.ParseObjCounts | src/Objloader.cpp:60-139 | the file yields one payload per `v`, `vt` and `vn` line, three vertex indices per face line, and three UV (normal) indices per face line that has them |
| ObjLoader.TexturedFacesAtMostFaces | src/Objloader.cpp:127-137 | faces with UVs or normals are at most all faces, and all of them when every face has them, so UV and normal indices never outnumber vertex indices |
| ObjLoader.Assemble | src/Objloader.cpp:144-169 | the three outputs are appended to, never cleared, and grow by one entry per vertex index; entry i takes the i-th position, the i-th UV index of the whole file if present and in range (else the (0,0) fallback), and the i-th normal index if present (else the (0,1,0) placeholder) |
| ObjLoader.LoadObj | src/Objloader.cpp:45-176 | a file that cannot be opened gives false and leaves the outputs unchanged; otherwise the result is true and the outputs are extended as `Assemble` states |
| ObjLoader.FaceLineWords | src/Objloader.cpp:82-83 | the written face line `f a b c` splits back into its four words |
| ObjLoader.FaceLineCorners | src/Objloader.cpp:82-120 | the three corners of a written face line parse back to the corners it was written from |
| ObjLoader.AddFaceOfCorners | src/Objloader.cpp:86-137 | three corners of one form are a well-defined face and append their own 0-based indices |
| ObjLoader.FaceLineRoundTrip | src/Objloader.cpp:80-137 | reading a face line written from three corners of one form appends exactly those corners' 0-based vertex indices, and their UV and normal indices when the form has them |
| MtlLoader.MtlLine | src/Objloader.cpp:15-38 | `newmtl` makes its name current (or keeps the current name when none follows) and resets that entry to the default; `Ka`, `Kd`, `Ks`, `Ns` and `d` keep the current name, create its entry if missing, set that field alone from the remaining words (keeping the rest of the entry) and change no other entry; any other line changes nothing |
| MtlLoader.ParseMtl | src/Objloader.cpp:14-39 | the read loop keeps the current material in the table once it is there, and a file whose last line is `newmtl` leaves the current material in the table |
| MtlLoader.LoadMtl | src/Objloader.cpp:4-43 | a file that cannot be opened gives false and leaves the table unchanged; otherwise the result is true, the table is the read loop's over all lines from an empty current name, and no existing material disappears |
| MtlLoader.KeysOnlyGrow | src/Objloader.cpp:14-39 | no sequence of lines removes a material from the table |
| MtlLoader.CurrentIsSelected | src/Objloader.cpp:19-21 | the current material is always the initial name or one a `newmtl` line named |
| MtlLoader.UnselectedMaterialsKept | src/Objloader.cpp:19-38 | a material never made current keeps its entry, or its absence |
| MeshDraw.KindSlot | include/Mesh.hpp:88-100 | a texture type advances a counter only when it is one of the five known types, and the counter it advances is that type's own |
| MeshDraw.SlotOfKnownKind | include/Mesh.hpp:88-100 | each of the five known types has a counter of its own |
| MeshDraw.BindTextures | include/Mesh.hpp:78-106 | texture i is bound on unit i with its sampler set to i, under its type's name followed by its 1-based position among the textures of that type; an unknown type gets the bare type name |
| MeshDraw.CountersStep | include/Mesh.hpp:84-103 | one loop turn builds the expected name and advances only the counter of the texture's own type, and none for an unknown type |
| MeshDraw.Draw | include/Mesh.hpp:76-135 | the bindings are as `BindTextures` states; `texture1` is set exactly when there are textures; an indexed draw of all indices happens exactly when there are indices, and otherwise all vertices are drawn |
| MeshDraw.NameDigitsSplit | include/Mesh.hpp:103 | a digit-free type name followed by a number splits into name and number in only one way |
| MeshDraw.KnownKindsHaveNoDigits | include/Mesh.hpp:88-100 | the five known type names contain no digit |
| MeshDraw.CountKindGrows | include/Mesh.hpp:88-100 | a later texture of a type has more textures of that type before it |
| MeshDraw.KnownUniformsDistinct | include/Mesh.hpp:78-104 | textures of the known types get pairwise distinct uniform names, however the types are interleaved |

## Left out

- Kruskal carving: kruksal/kruksal.h is not part of this model. The grid is an arbitrary input, so connectivity and acyclicity of the maze are not stated.
- The world-to-grid conversion `(int)((x / cellSize) + 0.5f)` in `IsWall` is float arithmetic. `IsWall` takes grid indices, and `CheckCollision` takes the conversion as a parameter.
- GameLogic.ProposedMove: states only that an idle key set gives zero and that only the eight movement keys matter. Normalising the front and right vectors and scaling by speed and time are float work, kept abstract.
- The camera's internals (the Euler-angle update of `ProcessMouseMovement`, the view matrix) are outside the core. `Init` records only which of the two poses the camera takes.
- The rest of `Init` is left out: scenery, trees, the portal arch and the text renderer set-up.
- Parsing of float payloads (`v`, `vt`, `vn`, `Ka`, `Kd`, `Ks`, `Ns`, `d`) is left out. Payloads are produced by reader functions passed in.
- `%d` conversion of a number that does not fit in an `int` is undefined behaviour in C. `ScanInt` returns the unbounded value.
- Faces that mix forms or contain an unparsable word leave some `uvIndex`/`normalIndex`/`vertexIndex` entries uninitialised. `AddFace` and `ParseObj` therefore require every face to be well defined.
- Out-of-range vertex and normal lookups are unchecked in the source. `Assemble` requires them to be in range. Out-of-range UV lookups are modelled, since the source checks them.
- A carved grid whose shape differs from the stored dimensions: the end scan and the start scan read a smaller or ragged grid out of range, and scan only the top-left window of a larger one. `Generate` requires the carved grid to have exactly the rounded shape, and `Init` requires the stored dimensions to describe the stored grid; `InitGuarded` drops that requirement.
- The texture-unit counters in `Mesh::Draw` are `unsigned int`. Wrap-around after 2^32 textures of one type is not modelled.
- File opening and reading are left out. A file is `None` when it cannot be opened, and otherwise its sequence of lines.
- All OpenGL, GLAD, GLFW and FreeType calls, shader set-up, buffer uploads and texture loading are left out. `Mesh::Draw` is reduced to the data it sends to GL.
- The socket wrappers of the networked build are left out.
- `sscanf` directives for whitespace are left out, because the face patterns contain none.

## Findings

| source | as written | input that shows it | evidently intended | confidence | as-written member | corrected member |
|---|---|---|---|---|---|---|
| src/Game.cpp:180-186 | the start scan runs to the stored `height` and `width` and reads `grid[z][x]` | a generator that throws on the first `Generate(15, 15)`: src/Maze.cpp:11-12 store 15 x 15, the exception is caught, and the grid stays the constructor's empty vector, so `grid[0][0]` is read out of range | bound the scan by the grid too, so no start is found and the overview camera stays | not executed; needs the generator to throw on a 15 x 15 request | GameLogic.InitAfterThrowScansMissingGrid | GameLogic.InitGuarded |
