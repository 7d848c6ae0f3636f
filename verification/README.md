# Terrain viewer and season server, modelled in Dafny

This project models the core of a small Qt/OpenGL terrain viewer and the TCP
server that drives its seasons.

- **Heightmap mesh** (`heightmap.dfy`, `grid.dfy`). `loadMap` turns a W×H image
  into a flat array of samples. Pixel (i, j) goes to index `i*W + j`, with
  x = i/W − 1/2, y = j/H − 1/2 and z = red/1000. The extents are cached from
  slot 0 and slot W·H − 1.
- **Drawing** (`drawing.dfy`, `colours.dfy`). The five drawing routines are
  vertex streams: points, lines, triangles, two-tone triangles and textured
  triangles. `render` dispatches among them. The season tint and the altitude
  palette are colour functions, and the OpenGL current colour is threaded
  through as state.
- **Particles** (`particles.dfy`). A rain and snow pool of 1000 particles falls
  and respawns in autumn and winter.
- **Keys and frames** (`controls.dfy`, `gamewindow.dfy`). These cover the
  camera, the display mode, the refresh rate and the heightmap number. They
  also cover start-up, map reloads, one frame of `render`, and the season
  string received from the server.
- **Season server** (`seasonserver.dfy`). The server has a four-slot client
  table and a staggered broadcast. Slot `i` gets the season `i` places after
  the current one, and then the season advances modulo 4.

## Modelling conventions

- Heights, particle heights and falling speeds are integer thousandths of a
  unit. That makes `z ≥ min_z` and the respawn test exact. Positions and
  colours are reals.
- `rand()` results are explicit `Draw` parameters.
- The images and the heightmap files behind `:/heightmap-N.png` are parameters.
  A missing file is a number absent from the resource map.
- Where `loadMap` has undefined behaviour, the model returns a `LoadError`:
  - An empty image reads `p[0]` of an empty array.
  - An image wider than it is tall (W ≥ 2) writes past the array.
  - An image taller than it is wide (W ≥ 2) leaves the last slot unwritten and
    then reads it.

  A mesh exists exactly for square images and single columns. The proof runs
  against a fold that mirrors the nested loops slot by slot (`LoadMapFollowsLoops`).

## Behaviour of the code worth noting

- The line mode draws 5 segments per block: the four edges and the diagonal
  (i+1,j)–(i,j+1), once (gamewindow.cpp:391-445).
- The altitude palette uses strict `>`, so an elevation exactly on a threshold
  takes the lower band (gamewindow.cpp:516-524).
- The spawn height `(rand()%5+3)/10` is one of 0.3, 0.4, …, 0.7
  (gamewindow.cpp:590).
- The falling speed is one of 0.001, …, 0.010 (gamewindow.cpp:592).
- A particle respawns on frame `(z − min_z)/s + 1`, with integer division. A
  particle that lands exactly on its stopping elevation survives one more
  frame (gamewindow.cpp:611-615).
- `initialize` loads heightmap 2 while the map number starts at 1, so the first
  `X` reloads heightmap 2 (gamewindow.cpp:29-80, 233-242).
- The spawn index `rand_y*W + rand_x` reads cell (rand_y, rand_x) of the
  loader's layout on a square map, so the row draw picks the column
  (gamewindow.cpp:584-586).

## Model

| member | source | states |
|---|---|---|
| Grid.InBoundsIff | gamewindow.cpp:94-103 | every pixel index `i*W+j` lies inside the W·H array exactly when W = 1 or W ≤ H |
| Grid.DistinctIff | gamewindow.cpp:96-103 | no two pixels share an index exactly when W = 1 or H ≤ W |
| Grid.SafeLayoutIff | gamewindow.cpp:94-108 | the layout is in bounds and injective exactly for square images or a single column, and then every slot is some pixel's |
| Grid.LastSlotMissed | gamewindow.cpp:103-114 | when 2 ≤ W < H no pixel is stored at the last slot that the extents read |
| Grid.CellsOrder | gamewindow.cpp:96-99 | the nested loops visit pixel (i, j) at step `i*H + j`, and every step is a pixel of the grid |
| Grid.SafeIndexIsRank | gamewindow.cpp:103 | on a safe layout the storage index of a pixel is its visiting step |
| Grid.Cells | gamewindow.cpp:96-99 | the loader's loop order, W·H cells long; `Grid.CellsOrder` states that cell (i, j) is visited at step `i*H + j` and every step is a grid cell |
| Grid.Blocks | gamewindow.cpp:281-283 | the block loops' order, (W−1)(H−1) blocks long; `Drawing.BlockCornersInGrid` states that every corner a block reads is in the grid |
| Heightmap.CoordinateFormula | gamewindow.cpp:105-106 | the coordinate formula `i/W − (W/2)/W` is `i/W − 1/2` |
| Heightmap.CoordinateMonotonic | gamewindow.cpp:105-106 | coordinates strictly increase along an axis |
| Heightmap.FillColumnsWrites | gamewindow.cpp:96-108 | when indices stay in bounds and are distinct, after the loops every pixel's slot holds that pixel's sample |
| Heightmap.FilledSafe | gamewindow.cpp:94-108 | on a safe layout the loops write every pixel's sample at `i*W+j` |
| Heightmap.FilledMissesLast | gamewindow.cpp:94-115 | on an in-bounds but unsafe layout the last slot is never written before the extents read it |
| Heightmap.SamplesAtIndex | gamewindow.cpp:103-107 | the mesh stores pixel (i, j)'s x, y and red value at `i*W+j`, and every slot holds some pixel's sample |
| Heightmap.LoopsWriteSamples | gamewindow.cpp:96-108 | on a safe layout the slots written by the loops equal the mesh samples one by one |
| Heightmap.SamplesCorners | gamewindow.cpp:111-115 | slot 0 holds pixel (0,0) and the last slot holds pixel (W−1,H−1) |
| Heightmap.FillColumn | gamewindow.cpp:98-107 | the inner loop keeps the array length; `Heightmap.FillColumnWrites` states that it leaves each row of the column holding its sample, and `Heightmap.FillColumnKeeps` that it touches no other slot |
| Heightmap.FillColumns | gamewindow.cpp:96-108 | the outer loop keeps the array length; `Heightmap.FillColumnsWrites` and `Heightmap.FillColumnsKeeps` state which slots it writes and which it keeps |
| Heightmap.Filled | gamewindow.cpp:94-108 | the array after both loops has W·H slots; `Heightmap.FilledSafe` and `Heightmap.FilledMissesLast` state which slots end up written |
| Heightmap.BuildMesh | gamewindow.cpp:94-115 | the mesh has W·H samples; the extents are the coordinates of pixels (0,0) and (W−1,H−1) |
| Heightmap.LoadMap | gamewindow.cpp:86-116 | loading succeeds exactly for square images or one column; each failure kind corresponds to exactly its shape of image |
| Heightmap.LoadMapFollowsLoops | gamewindow.cpp:93-115 | loading succeeds exactly when the loops' writes stay in bounds and the last slot was written, and the mesh is what the loops wrote |
| Heightmap.ExtentsBound | gamewindow.cpp:111-115 | every sample lies within the cached extents; x grows with the column and y with the row |
| Colours.SeasonColor | gamewindow.cpp:558-571 | a string that is no season name leaves the current colour unchanged |
| Colours.SeasonColorIsLookup | gamewindow.cpp:558-571 | the separate spring `if` plus the else-chain amounts to one table lookup that falls back to the current colour |
| Colours.SeasonTintKeys | gamewindow.cpp:558-571 | the four season names are pairwise different and are exactly the strings that tint |
| Colours.SeasonTintsDistinct | gamewindow.cpp:559-570 | the four seasons give four different tints |
| Colours.SeasonColorIdempotent | gamewindow.cpp:558-571 | tinting twice is tinting once |
| Colours.SeasonColorForgetsCurrent | gamewindow.cpp:558-571 | a season name fixes the colour whatever was current; any other string keeps it |
| Colours.GluedNamesTintNothing | gamewindow.cpp:558-571 | two season names run together are no season name and tint nothing |
| Colours.AltitudeColourBands | gamewindow.cpp:514-533 | each altitude band gives its colour: white above 0.2, (alt,1,1) in (0.1,0.2], (1,alt,alt) in (0.05,0.1], else blue |
| Colours.AltitudeColourInRange | gamewindow.cpp:514-533 | for pixel elevations every palette colour has channels in [0,1] |
| Colours.AltitudeThresholds | gamewindow.cpp:516-524 | an elevation exactly on a threshold takes the lower band |
| Colours.AltitudeColour | gamewindow.cpp:514-533 | every palette colour has channels in [0,1] at any elevation; `Colours.AltitudeColourBands` states the colour of each band |
| Drawing.ExpandAt | gamewindow.cpp:281-319 | corner `t` of block `k` is emitted at position `k·|pattern| + t` |
| Drawing.DisplayPoints | gamewindow.cpp:249-270 | one pass of W·H points; `Drawing.PointsInStorageOrder` states that point k is sample k in the season tint over white |
| Drawing.DisplayLines | gamewindow.cpp:380-450 | one pass of 10 line vertices per block; `Drawing.LinesAt` and `Drawing.LineSegmentsOfBlock` state which samples they are and that they form five segments |
| Drawing.DisplayTriangles | gamewindow.cpp:275-323 | one pass of 6 triangle vertices per block; `Drawing.TriangleModesAgree` states which samples they are, in the season tint |
| Drawing.DisplayTrianglesC | gamewindow.cpp:328-375 | one pass of 6 triangle vertices per block; `Drawing.TriangleModesAgree` states the green-then-white colouring and `Drawing.TwoToneEndsWhite` the colour left current |
| Drawing.DisplayTrianglesTexture | gamewindow.cpp:455-508 | one pass of 6 triangle vertices per block; `Drawing.TriangleModesAgree` states the altitude colouring and `Drawing.TextureLastColour` the colour left current |
| Drawing.Terrain | gamewindow.cpp:131-156 | two passes in mode 5 and one otherwise, with the mode's primitive first; `Drawing.TerrainDispatch`, `Drawing.TerrainVertexCounts` and `Drawing.OverlayColour` state the dispatch |
| Drawing.PointCornersInGrid | gamewindow.cpp:257-265 | every point the point mode reads is a pixel of the grid |
| Drawing.BlockCornersInGrid | gamewindow.cpp:281-318 | every corner a block mode reads is a pixel of the grid, so every read index is in bounds |
| Drawing.PointsInStorageOrder | gamewindow.cpp:249-270 | the point mode draws all W·H samples in storage order, in the season tint over white, and leaves that tint current |
| Drawing.BlockVertexAt | gamewindow.cpp:281-319 | a block mode's vertex for corner `t` of block `k` is the sample at that corner's index, coloured by the mode |
| Drawing.TriangleVertexAt | gamewindow.cpp:281-319 | the triangle pattern's corner `t` of block `k` is vertex `6k + t` |
| Drawing.TriangleModesAgree | gamewindow.cpp:275-508 | modes 2, 3 and 4 emit the same samples in the same order, (i,j),(i,j+1),(i+1,j),(i,j+1),(i+1,j+1),(i+1,j) per block; they differ only in colour: season tint, green then white, or altitude palette |
| Drawing.LinesAt | gamewindow.cpp:386-446 | the line mode's vertex `10k + t` is corner `t` of block `k`, in the season tint |
| Drawing.LineSegmentsOfBlock | gamewindow.cpp:391-445 | a block's ten line vertices form five different segments, the four edges and the anti-diagonal |
| Drawing.TwoToneEndsWhite | gamewindow.cpp:328-375 | the two-tone mode always leaves white as the current colour |
| Drawing.TextureLastColour | gamewindow.cpp:455-508 | the textured mode leaves current the altitude colour of its last vertex, cell (W−1,H−2), or white when there is no block |
| Drawing.ThinMeshNoBlocks | gamewindow.cpp:281-283 | a one-column or one-row mesh gives no blocks, so every block mode draws nothing |
| Drawing.TerrainVertexCounts | gamewindow.cpp:131-156 | the vertex counts per mode: W·H points, 10 or 6 per block, 6 + 10 per block in mode 5 |
| Drawing.TerrainDispatch | gamewindow.cpp:131-156 | each mode draws with its primitive, and any mode outside 0..5 draws as mode 0 |
| Drawing.OverlayColour | gamewindow.cpp:148-152 | mode 5 draws textured triangles, then lines in the season tint, or in the colour the texture left when the season is no name |
| Particles.SpawnIndexBelow | gamewindow.cpp:584-586 | the spawn index `rand_y*W + rand_x` is below W·H for every W, H ≥ 1 |
| Particles.NewParticle | gamewindow.cpp:580-595 | a spawn starts at 0.3 to 0.7 in steps of 0.1 with speed 0.001 to 0.010, over the spawn slot's sample, stopping at its elevation |
| Particles.SpawnCell | gamewindow.cpp:584-591 | on a square map the spawn sits over pixel (rand_y, rand_x); on one column over pixel (0, rand_y) |
| Particles.CreateParticles | gamewindow.cpp:573-578 | a new pool has 1000 fresh, valid particles |
| Particles.CreateParticlesAnchored | gamewindow.cpp:573-578 | slot `k` of a new pool hangs over the sample its own draw selects |
| Particles.StepSlot | gamewindow.cpp:611-615 | falling and respawning keep a particle valid |
| Particles.Tick | gamewindow.cpp:598-618 | a frame keeps the pool at its size |
| Particles.TickGate | gamewindow.cpp:599-605 | particles are drawn exactly in autumn and winter; otherwise pool and colour are untouched |
| Particles.TickSlot | gamewindow.cpp:608-616 | slot `k` falls by its speed and is replaced from its own draw exactly when it ends below its stopping elevation |
| Particles.TickDraws | gamewindow.cpp:598-618 | each drawn point is its particle before the fall, blue in autumn and white in winter, and never below its stopping elevation |
| Particles.TickPreservesValid | gamewindow.cpp:608-616 | every frame keeps every particle at or above its stopping elevation with a positive speed |
| Particles.LifetimeFormula | gamewindow.cpp:611-615 | a particle respawns after `(z − min_z)/s + 1` frames |
| Particles.StepSlotLifetime | gamewindow.cpp:611-615 | the lifetime counts the frames: a particle with one frame left respawns on the next step, and any other falls with one frame fewer |
| Particles.SpawnAboveTerrain | gamewindow.cpp:588-591 | a spawn starts strictly above every terrain elevation |
| Controls.HalfTowardZero | gamewindow.cpp:227 | integer halving truncates toward zero, as C does |
| Controls.KeyPressKeepsRange | gamewindow.cpp:189-243 | every key keeps the mode in 0..5, the map number in 1..3 and the refresh rate in [1,120] |
| Controls.RefreshClamps | gamewindow.cpp:219-231 | `P` never exceeds 120 and `M` never goes below 1 |
| Controls.FasterSlowerInverse | gamewindow.cpp:219-231 | `M` undoes `P` up to 60, `P` undoes `M` on even rates up to 120, and `P` above 60 gives 120 |
| Controls.HalfTruncates | gamewindow.cpp:226-229 | halving rounds toward zero; 1 and 3 halve and clamp to 1 |
| Controls.ModeCycle | gamewindow.cpp:211-215 | `W` steps the mode to the next one modulo 6, and six presses return to the start |
| Controls.ModeOutOfRange | gamewindow.cpp:211-215 | from 5 or more `W` goes to 0, otherwise it adds one |
| Controls.MapCycle | gamewindow.cpp:233-236 | `X` cycles the map number 1, 2, 3, 1 |
| Controls.KeyPressFrame | gamewindow.cpp:189-243 | each key changes only its own field, and an unbound key changes nothing |
| Controls.KeyPress | gamewindow.cpp:189-243 | an unbound key changes nothing and every key keeps the controls in range; `Controls.KeyPressFrame` states which field each key changes |
| Controls.OppositeKeysCancel | gamewindow.cpp:193-218 | zoom, tilt and turn keys undo each other in pairs, and `C` twice restores the flag |
| Controls.AnimStep | gamewindow.cpp:538-540 | auto-rotation adds `speed` to `rotY` and changes nothing else |
| GameWindow.LoadNumbered | gamewindow.cpp:86-116 | a missing file keeps the image already held; the load succeeds exactly when that image is square or one column wide, and the mesh has the image's shape |
| GameWindow.Init | gamewindow.cpp:29-80 | start-up succeeds exactly when heightmap 2 loads, with season "NONE", map number 1, animation on and a valid full pool |
| GameWindow.HandleKey | gamewindow.cpp:189-244 | every key other than `X` succeeds and changes only the controls |
| GameWindow.ReadyRead | gamewindow.cpp:656-666 | the season becomes the payload and nothing else changes |
| GameWindow.HandleKeyKeepsInv | gamewindow.cpp:189-244 | keys keep the window invariant: map number in range, mesh built from the image, full valid pool |
| GameWindow.ReloadMissingFile | gamewindow.cpp:233-242 | `X` with the file missing only advances the map number and keeps image and mesh |
| GameWindow.ReloadLoadsNext | gamewindow.cpp:233-242 | `X` loads the next map's image, fails exactly when that image has an unsafe shape, and keeps the particles |
| GameWindow.FirstReloadRepeatsStartMap | gamewindow.cpp:29-80 | a started window shows heightmap 2 with map number 1, so the first `X` loads heightmap 2 again |
| GameWindow.RenderKeepsInv | gamewindow.cpp:121-165 | a frame keeps the window invariant |
| GameWindow.Render | gamewindow.cpp:121-165 | a frame keeps the pool size, mesh, image and season and counts one frame; `GameWindow.RenderFrame` states the drawing order and the camera turn |
| GameWindow.TerrainRepeats | gamewindow.cpp:131-156 | two consecutive frames with the same mesh, mode and season draw the same terrain, although the first changes the current colour |
| GameWindow.RenderFrame | gamewindow.cpp:121-165 | the terrain is drawn before the particles, the transform uses the camera before the turn, `rotY` grows by `speed` exactly when animating, and nothing else but the pool, the colour and the frame count changes |
| GameWindow.RenderNoPrecipitation | gamewindow.cpp:598-605 | outside autumn and winter a frame draws only the terrain and the particles stay frozen |
| GameWindow.ReadyReadLastWins | gamewindow.cpp:656-666 | only the last payload counts, and reading keeps the invariant |
| GameWindow.GluedPayload | gamewindow.cpp:656-666 | two broadcasts read as one string neither tint the terrain nor move the particles |
| SeasonServer.Start | mytcpserver.cpp:3-25 | `id` and `season` are set to 0 only when `listen` succeeds |
| SeasonServer.NewConnection | mytcpserver.cpp:27-36 | connections keep the slot table consistent: the first `id` slots filled, `id` at most 4 |
| SeasonServer.ConnectionSlot | mytcpserver.cpp:27-36 | a connection fills slot `id` and increments `id` while a slot is free; once full it changes nothing |
| SeasonServer.SendFrom | mytcpserver.cpp:41-57 | the loop writes one message per slot from `i` to `id − 1` |
| SeasonServer.SendSeason | mytcpserver.cpp:38-62 | a broadcast keeps the table consistent and the season in 0..3 |
| SeasonServer.SendFromAt | mytcpserver.cpp:40-57 | the loop sends slot `k` the name `k − i` places after its starting season |
| SeasonServer.Broadcast | mytcpserver.cpp:38-57 | a broadcast sends exactly `id` messages in slot order, slot `k` getting `name[(season + k) mod 4]` |
| SeasonServer.BroadcastAdvances | mytcpserver.cpp:59-61 | every broadcast advances the season by one modulo 4, even with no clients |
| SeasonServer.FourBroadcasts | mytcpserver.cpp:59-61 | four broadcasts bring the server back to its state |
| SeasonServer.ThreeClients | mytcpserver.cpp:38-61 | with three clients: PRINTEMPS, ETE, AUTOMNE, then ETE, AUTOMNE, HIVER |
| SeasonServer.Run | mytcpserver.h:26-28 | along any sequence of connections and broadcasts the table stays consistent and the season stays in 0..3 |
| SeasonServer.RunKeepsSlots | mytcpserver.cpp:27-36 | `id` never decreases and a filled slot is never overwritten |
| SeasonServer.RunMessagesTracked | mytcpserver.cpp:41-57 | every message goes to the socket held in a filled slot |
| SeasonServer.FifthClientIgnored | mytcpserver.cpp:32-35 | a socket connecting after four are tracked never receives a message |
| SeasonServer.StoppedIsInert | mytcpserver.cpp:11-14 | a server whose `listen` failed ignores every event and sends nothing |

## Left out

- OpenGL itself. `glBegin`/`glEnd`, `glVertex3f` and `glColor3f` are the
  returned passes and the threaded current colour. Viewport, projection, clear
  and the scale/rotate matrix are not modelled; a frame only records the zoom
  and angles it set up.
- Qt plumbing is not modelled: timers (`restartTimer`), `event`, the window
  title (`updateTitle`), `doConnect` and the `connected`/`disconnected`/
  `bytesWritten` slots. `readyRead` takes whatever bytes one read returned as
  its payload.
- Image decoding (`QImage`, `QFile::exists`) is not modelled. An image is its
  width, height and red channel.
- Single-precision rounding is not modelled. Zoom, angles and coordinates are
  reals, and elevations are exact thousandths. So `0.001f * 200` is compared
  as exactly 0.2, even though in floats it rounds slightly above 0.2.
- Controls.KeyPress: does not model 32-bit overflow when `P` doubles a refresh
  rate beyond 2^30, because the clamp keeps reachable rates at or below 120.
- Particles.Tick: gives each slot its own `rand()` draws. The source calls
  `rand()` only for the slots that respawn, in slot order. The draws are
  arbitrary either way.
- Memory management is not modelled: the sample array leaked on every reload,
  the pool never freed, and camera ownership in the destructor.
- Several windows sharing the file-static `animate` flag or one camera are not
  modelled. One window's state is modelled.
- The camera's initial values (`camera.h` is not part of this model) and the
  frame counter are parameters of `GameWindow.Init`. The source leaves the
  frame counter uninitialised.
- `MyTcpServer::start(int)` is declared but never defined, so it has no model.
- Socket writes, `flush` and `waitForBytesWritten` are not modelled; a write is
  a returned message. Disconnected clients are not modelled, because the table
  never removes a slot.
