# Wide World core, modelled in Dafny

Wide World is a small isometric world viewer. A Rust/WASM side generates and
edits a tile map and searches it for paths. A JavaScript side draws the map
with WebGL, moves a camera over it and turns pointer events into tap, pan and
pinch gestures. This project models the logic in that core and proves its
properties:

- **Graph** (`graph.dfy`) models `src/graph.rs`. It has:
  - the breadth-first search `bfs_path_to_target`, with its queue, visited set and predecessor map;
  - `get_path`, which walks the predecessor chain back and reverses it;
  - the module's two grid tests.
- **WorldMap** (`world_map.dfy`) models `src/map.rs`. It covers:
  - the `Map` grid with its three row-major layers (base tiles, overlay tiles, heights) and their accessors;
  - the bounds check and the 4- and 8-neighbourhoods;
  - the `edge_slope` classifier, the `path_direction` classifier and slope-aware `walkable_cells`;
  - `is_invalid_tile`, the rock and patch placement tests, and the rejection-sampling `place_random`;
  - the unit tests of walking and slopes.
- **Util** (`util.mjs`): `clamp` and the isometric transforms `to2d` and `toIso`.
- **Camera** (`camera.3d.mjs`) covers:
  - the camera, view-projection and clip-space computations, as explicit axis-aligned affine maps over the reals;
  - the camera object, with `moveTo`, `zoomToCenter` and the two-stage `zoomToScreenCoord`.
- **TileImage** (`tile.image.mjs`) models the sprite batch:
  - two fixed-size float arrays filled twelve floats per quad;
  - the quad counter, with an automatic draw when the arrays are full;
  - `flush`.

  GL draws are recorded in a ghost log.
- **Renderer** (`renderer.iso.mjs`): `render` clamps a window of cells around the camera, walks it row by row into the batch, and flushes.
- **Pointer** (`pointer.mjs`) models the gesture recogniser:
  - the map of active pointers;
  - the tap, pan and pinch sessions;
  - the handler registry.

  Emitted callbacks are recorded as an appended trace of deliveries.

JavaScript numbers are modelled as exact reals and Rust `usize` as bounded
naturals.

## Model

| member | source | states |
|---|---|---|
| Util.Clamp | www/util.mjs:12-14 | The result lies in `[min, max]` whenever `min <= max`. It is `val` itself when `val` is already in range, and otherwise one of `val`, `min` or `max`. |
| Util.ClampMonotone | www/util.mjs:12-14 | Clamping is monotone in the value. |
| Util.To2d | www/util.mjs:16-21 | The result is the grid point whose isometric image is the input: its coordinates differ by `p.x` and average to `p.y`. |
| Util.ToIso | www/util.mjs:23-28 | The result is the isometric point that `to2d` sends back to the input. |
| Util.To2dToIso | www/util.mjs:16-28 | `to2d` undoes `toIso` on every point. |
| Util.ToIsoTo2d | www/util.mjs:16-28 | `toIso` undoes `to2d` on every point, so the two are an exact inverse pair. |
| Camera.MultiplyApply | www/camera.3d.mjs:20 | Applying the product matrix is applying the right factor, then the left one. |
| Camera.Projection | www/camera.3d.mjs:17 | The pixel projection sends the canvas corner `(0, 0)` to clip `(-1, 1)` and `(width, height)` to `(1, -1)`. |
| Camera.CameraMatrix | www/camera.3d.mjs:6-14 | The camera matrix is invertible and maps the viewport centre `(width/2, height/2)` to the focus `(x, y)`. |
| Camera.Invert | www/camera.3d.mjs:19 | The inverse of an invertible matrix is invertible. |
| Camera.InvertApply | www/camera.3d.mjs:19 | The inverse undoes the matrix, and the matrix undoes the inverse. |
| Camera.CameraMatrixForm | www/camera.3d.mjs:6-14 | The camera matrix, built by translate, scale and translate, is the map `p -> (x, y) + (p - (w/2, h/2)) / zoom`. |
| Camera.CameraMatrixMaps | www/camera.3d.mjs:6-14 | The camera matrix maps the viewport centre `(w/2, h/2)` to the focus `(x, y)`. |
| Camera.ViewProjection | www/camera.3d.mjs:16-21 | The view-projection matrix is invertible for every non-zero zoom and canvas size. |
| Camera.ViewProjectionForm | www/camera.3d.mjs:16-21 | The view-projection matrix scales by `2 zoom / w` and `-2 zoom / h` around the focus. |
| Camera.InverseCameraForm | www/camera.3d.mjs:19 | The view matrix, the inverse of the camera matrix, scales by `zoom` and moves the focus to the viewport centre. |
| Camera.Unproject | www/camera.3d.mjs:91-95 | The unprojected point is the world point that the matrix sends to the clip point. |
| Camera.UnprojectForm | www/camera.3d.mjs:91-95 | Unprojecting a clip point gives `(x + cx w / 2zoom, y - cy h / 2zoom)`. |
| Camera.CentreUnprojectsToFocus | www/camera.3d.mjs:78-87 | The clip origin always unprojects to the focus, so zooming about the centre keeps the focus centred. |
| Camera.ZoomWithoutShiftDrifts | www/camera.3d.mjs:96-111 | Changing the zoom alone moves the world point under every clip point other than the origin, whichever axis it is off. This is why the focus is corrected. |
| Camera.ZoomAnchor | www/camera.3d.mjs:88-123 | Shifting the focus by (pre-zoom point minus post-zoom point) puts the pre-zoom world point back under the clip point. |
| Camera.ClipSpacePosition | www/camera.3d.mjs:23-35 | A client position inside the canvas rectangle lands in the clip square `[-1, 1] x [-1, 1]`, on each axis. |
| Camera.ClipSpaceIsProjection | www/camera.3d.mjs:23-35 | The clip conversion is `clipX = 2 sx / W - 1` and `clipY = 1 - 2 sy / H` on the position relative to the canvas, and the canvas centre maps to `(0, 0)`. |
| Camera.Camera.constructor | www/camera.3d.mjs:37-48 | The focus starts at the given coordinate with zoom 1, and the matrix matches that state. |
| Camera.Camera.MoveTo | www/camera.3d.mjs:67-77 | The focus becomes `(x, y)`, the zoom is unchanged and the matrix is rebuilt. |
| Camera.Camera.ZoomToCenter | www/camera.3d.mjs:78-87 | The zoom becomes the new zoom, the focus is unchanged, and the clip origin unprojects to the focus. |
| Camera.Camera.ZoomToScreenCoord | www/camera.3d.mjs:88-123 | The zoom becomes the new zoom, the matrix matches the new state, and the world point under the cursor is the same before and after. |
| TileImage.QuadVertices | www/tile.image.mjs:154-161 | The six vertices follow `INDICES = [0,1,3,3,1,2]` over the unit-quad corners. Each is at `(x + 2 l p0, y + 2 w p1 - h l / 2)`. |
| TileImage.VertFloat | www/tile.image.mjs:154-161 | Every x float is `x` or `x + 2l`, and every y float is `y - h l / 2` or that plus `2w`: each vertex is a corner of the tile's parallelogram. |
| TileImage.TexFloat | www/tile.image.mjs:163-168 | Every texture float is an edge of the sprite's cell: `tile mod 12` or one more, over 12, across, and `floor(tile / 12)` or one more, over 5, down. |
| TileImage.TexInsideSprite | www/tile.image.mjs:147-168 | Every texture coordinate lies inside the sprite cell `(type mod 12, floor(type / 12))` of the 12 x 5 atlas, and inside `[0, 1]`. |
| TileImage.AddsFillBatches | www/tile.image.mjs:171-175 | From a counter below capacity, `n` adds issue `(count + n) div 65536` draws and leave `(count + n) mod 65536` quads queued. |
| TileImage.FloatsSnoc | www/tile.image.mjs:138 | Appending a quad appends its twelve floats at offset `12 * count` of both buffers. |
| TileImage.TileBatch.constructor | www/tile.image.mjs:44-52 | The buffers hold `65536 * 6 * 2` floats, the counter is 0, nothing is queued or drawn, and the matrix is the identity. |
| TileImage.TileBatch.SetViewProjMatrix | www/tile.image.mjs:177-179 | The matrix is replaced and the batch is unchanged. |
| TileImage.TileBatch.DrawBatch | www/tile.image.mjs:107-129 | It logs one draw of `6 * count` vertices with the current matrix and the queued quads, then resets the counter to 0. |
| TileImage.TileBatch.Flush | www/tile.image.mjs:132-136 | It draws only when the counter is non-zero, and afterwards the counter is 0. |
| TileImage.TileBatch.WriteQuad | www/tile.image.mjs:154-169 | Exactly the twelve floats at `[offset, offset + 12)` of each buffer are written, with the quad's vertex and texture values. Every other element is unchanged. |
| TileImage.TileBatch.Add | www/tile.image.mjs:137-176 | The quad is queued and the counter steps. When the counter reaches capacity, one full draw is logged and the counter is back at 0. The counter stays below capacity, so every write is in bounds. |
| Renderer.ClampIndex | www/renderer.iso.mjs:24-25 | The clamped index lies in `[0, n]`. It is unchanged inside that range and saturates below and above. |
| Renderer.VisibleRange | www/renderer.iso.mjs:24-32 | The clamped range `[min, end)` is ordered and lies inside `[0, n]`. |
| Renderer.Window | www/renderer.iso.mjs:23-32 | The row range lies inside `[0, rows]` and the column range inside `[0, cols]`, each ordered. |
| Renderer.VisibleRangeExact | www/renderer.iso.mjs:29-32 | An index is in the clamped range iff it is in `[0, n)` and within `distance` of the target (upper end excluded). |
| Renderer.WindowExact | www/renderer.iso.mjs:23-32 | A cell is in the window iff it is on the level and within `distance` rows and columns of the camera target, found through `to2d` and floor. |
| Renderer.CellIndex | www/renderer.iso.mjs:40-42 | Every visited index `i * cols + j` is below `rows * cols`. |
| Renderer.CellsExact | www/renderer.iso.mjs:34-35 | The loops visit exactly the cells of `[rowMin, rowEnd) x [colMin, colEnd)`. |
| Renderer.CellsOrdered | www/renderer.iso.mjs:34-35 | Cells are visited in strictly increasing row-major order, so each is visited once. |
| Renderer.QuadsOfCount | www/renderer.iso.mjs:44-63 | Each cell adds one or two quads. It adds exactly one when no overlay is present. |
| Renderer.CellQuadsShape | www/renderer.iso.mjs:36-63 | A cell of the level draws its base tile at its isometric position, with its height and the cell's width and depth. It draws a second quad exactly when its overlay is not the empty tile: that quad carries the overlay, at the same place, one unit higher. A cell outside the level draws nothing. |
| Renderer.WindowQuadsOfCells | www/renderer.iso.mjs:34-65 | The quads of the row loops are the cell quads of the row-major cell sequence, concatenated. |
| Renderer.DrawCell | www/renderer.iso.mjs:36-63 | It queues the base quad `(toIso(j S, i S), height, tile1)`, then the overlay quad at `height + 1` iff `tile2 != Empty`. The counter and draw count follow the add rule. |
| Renderer.DrawRow | www/renderer.iso.mjs:35-64 | It queues the quads of one row of the window, from left to right. |
| Renderer.DrawWindow | www/renderer.iso.mjs:34-65 | It queues the quads of the window rows, from top to bottom. |
| Renderer.DrawFrame | www/renderer.iso.mjs:34-66 | The draws issued by the row loops and the final flush carry, in order, the quads that were already queued followed by the window's quads in row-major order. Every one of them uses the batch's matrix, earlier draws are kept, and the counter ends at 0. |
| Renderer.Render | www/renderer.iso.mjs:10-67 | The camera matrix is copied into the batch. The new draws, taken together, carry the quads queued before the frame followed by the window's quads in row-major order, and each new draw uses the camera's matrix. Earlier draws are unchanged, the counter ends at 0, the number of draws matches the add and flush rules, and every queued quad was drawn. |
| Graph.Reverse | src/graph.rs:15 | The result has the same length, with element `i` taken from position `len - 1 - i`. |
| Graph.GetPath | src/graph.rs:4-17 | The path is non-empty, ends with the given cell and starts at a cell with no predecessor. Each later cell's predecessor is the cell before it. |
| Graph.BfsPathToTarget | src/graph.rs:19-55 | A returned path is a neighbour walk from the start to a matching cell, and no walk to a match is shorter. The result is `None` iff no walk reaches a match, and it is `Some([start])` when the start matches. |
| Graph.QueueNeighbors | src/graph.rs:42-48 | Offering every neighbour keeps the search invariant: distinct queue entries at non-decreasing distances, shortest predecessor links and every cell within the layer visited. The number of unvisited cells drops unless nothing was queued. |
| Graph.OfferNeighbor | src/graph.rs:43-47 | An unvisited neighbour is queued, marked visited and linked to the current cell. A visited one changes nothing, so each cell is queued at most once. |
| Graph.NextLayer | src/graph.rs:37 | Whatever the queue head's distance, every cell that some walk reaches within that many steps is already visited. |
| Graph.ChainIsWalk | src/graph.rs:8-16 | The predecessor chain of a visited cell is a neighbour walk from the start, one cell longer than the cell's distance. |
| Graph.FoundTarget | src/graph.rs:38-40 | The chain of the first matching cell taken from the queue is a walk to a match that no other such walk beats. |
| Graph.Exhausted | src/graph.rs:50-52 | When the queue empties without a match, no walk from the start reaches a matching cell. |
| Graph.NewCellShortest | src/graph.rs:43-46 | A newly visited neighbour gets distance `layer + 1`, and no walk reaches it in fewer steps. |
| Graph.WalkInside | src/graph.rs:97-137 | A walk never leaves a set of cells closed under the neighbour function. |
| Graph.WalkCoversSteps | src/graph.rs:60-96 | When every neighbour is one grid step away, a walk is at least as long as the grid distance it covers. |
| Graph.FindPathToClosest | src/graph.rs:60-96 | On the open 4 x 4 grid, the path from `(0, 0)` to `(2, 2)` is found and has 5 cells. |
| Graph.NoPath | src/graph.rs:97-137 | When a wall cuts row 0 off from the target, the search returns `None`. |
| WorldMap.OffsetInjective | src/map.rs:678-708 | Distinct in-bounds cells have distinct row-major indices `row * col_count + col`. |
| WorldMap.OffsetInRange | src/map.rs:678-708 | The index of an in-bounds cell is below `row_count * col_count`. |
| WorldMap.UncheckedColumnWraps | src/map.rs:678-680 | The flat index does not check the column: column `col_count` of a row is the first cell of the next row. |
| WorldMap.WriteOneCell | src/map.rs:682-708 | Writing one cell of a layer changes that cell only. |
| WorldMap.ScanExact | src/map.rs:70-104 | The flag loop over the lower neighbours sets exactly the flags of the directions where some neighbour lies. |
| WorldMap.EdgeSlope | src/map.rs:70-151 | The slope is the classification of the directions that hold a lower neighbour, whatever their order or repetition. |
| WorldMap.SlopeOf | src/map.rs:106-151 | One lower cardinal gives a cardinal slope or a 1-high corner. Two give a 1-high corner or `Unknown`, and three or four give `Unknown`. None gives a 3-high corner, a saddle or `Unknown`. A cardinal slope faces a lower neighbour in that direction. |
| WorldMap.EdgeSlopeOneCardinal | src/map.rs:106-124 | With one lower cardinal neighbour, the slope is that cardinal, or the 1-high corner when the listed flanking diagonal is also lower. |
| WorldMap.EdgeSlopeTwoCardinals | src/map.rs:106-136 | Two adjacent lower cardinals give their 1-high corner, unless the opposite diagonal is also lower, which gives `Unknown`. |
| WorldMap.EdgeSlopeUnknown | src/map.rs:106-151 | Opposite cardinals, or three or four cardinals, give `Unknown`. |
| WorldMap.EdgeSlopeDiagonals | src/map.rs:138-151 | With only diagonal lower neighbours, opposite diagonals give a saddle and a single diagonal gives its 3-high corner. No lower neighbour gives `Unknown`. |
| WorldMap.EdgeSlopeExamples | src/map.rs:762-819 | The classifier gives the slopes expected by the first block of the unit test table. |
| WorldMap.EdgeSlopeMoreExamples | src/map.rs:820-880 | The classifier gives the slopes expected by the rest of the unit test table. |
| WorldMap.HalvesInRange | src/map.rs:153-165 | The vertical half of a path direction is only ever North or South, and the horizontal half only East or West. |
| WorldMap.PathDirection | src/map.rs:153-193 | The direction is the corner named by the last vertical and the last horizontal neighbour. It is required to be one of the handled combinations, since the others panic. |
| WorldMap.PathDirectionDefined | src/map.rs:166-192 | The call does not panic iff some neighbour differs from the edge cell. |
| WorldMap.PathDirectionStraight | src/map.rs:166-192 | Only vertical neighbours give `Lon`, and only horizontal neighbours give `Lat`. |
| WorldMap.PathDirectionTurn | src/map.rs:166-192 | A vertical plus a horizontal neighbour give the corner opposite both, in either order: north+east is `SouthWest`, south+west is `NorthEast`, and so on. |
| WorldMap.SlopeCheck | src/map.rs:212-224 | A step through the slope test starts from a base slope, lands on `Base` or the same slope, and is vertical or horizontal. |
| WorldMap.Map.constructor | src/map.rs:371-379 | A new map of the given size is all `Base`, with an `Empty` overlay and height 0. |
| WorldMap.Map.SetTile | src/map.rs:682-684 | The base tile of one cell is replaced. Every other cell and both other layers are unchanged. |
| WorldMap.Map.SetTile2 | src/map.rs:694-696 | The overlay tile of one cell is replaced. Every other cell and both other layers are unchanged. |
| WorldMap.Map.SetHeight | src/map.rs:706-708 | The height of one cell is replaced. Every other cell and both tile layers are unchanged. |
| WorldMap.Map.InBoundsIndex | src/map.rs:674-676 | The row-major index of an in-bounds cell lies inside the layers. |
| WorldMap.Map.GetTile | src/map.rs:678-680 | The base tile of an in-bounds cell is the base layer's entry at `row * col_count + col`, which lies inside the layer. |
| WorldMap.Map.GetTile2 | src/map.rs:690-692 | The overlay tile of an in-bounds cell is the overlay layer's entry at `row * col_count + col`, which lies inside the layer. |
| WorldMap.Map.GetHeight | src/map.rs:702-704 | The height of an in-bounds cell is the height layer's entry at `row * col_count + col`, which lies inside the layer. |
| WorldMap.Map.Neighbors | src/map.rs:289-301 | A cell is in the result iff it is in bounds and its signed coordinates are among the candidates. |
| WorldMap.Map.Neighbors4 | src/map.rs:303-311 | The 4-neighbourhood holds only cells on the grid, and never the cell itself. |
| WorldMap.Map.Neighbors8 | src/map.rs:313-330 | The 8-neighbourhood holds only cells on the grid, and never the cell itself. |
| WorldMap.Map.Neighbors4Exact | src/map.rs:303-311 | The 4-neighbourhood is exactly the in-bounds cells one orthogonal step away, so never the cell itself. |
| WorldMap.Map.Neighbors8Exact | src/map.rs:313-330 | The 8-neighbourhood is exactly the in-bounds cells other than the cell itself that are at most one step away in each coordinate. |
| WorldMap.Map.NeighborhoodSizes | src/map.rs:303-330 | The neighbourhoods hold at most 4 and at most 8 cells. |
| WorldMap.Map.WalkableCells | src/map.rs:196-241 | The walkable cells are a subset of the 4-neighbourhood. |
| WorldMap.Map.WalkableFlat | src/map.rs:226-238 | When neither cell is a base slope, a neighbour is walkable iff it is one orthogonal step away, `Base` and at equal height. |
| WorldMap.Map.WalkableSlope | src/map.rs:212-232 | When either cell is a base slope, the other must be `Base` or the same slope. A north or south slope allows only a vertical step, and an east or west slope only a horizontal one. |
| WorldMap.Map.PitCenterStuck | src/map.rs:722-741 | From the bottom of a pit, with every neighbour higher, no neighbour is walkable. |
| WorldMap.Map.PitRimStuck | src/map.rs:722-741 | From the middle of the pit's bottom row, every neighbour is at another height, so none is walkable. |
| WorldMap.Map.CannotWalkSideToSide | src/map.rs:742-760 | From a north slope, only the cell above is walkable, not the level cells to its sides. |
| WorldMap.Map.LowerNeighbors | src/map.rs:334-340 | The lower neighbours are a subset of the 4-neighbourhood. |
| WorldMap.Map.InteriorLower | src/map.rs:334-340 | For an interior cell, each of its four neighbours is among the lower neighbours iff it is strictly lower. |
| WorldMap.Map.IsInvalidTile | src/map.rs:332-367 | A border cell is invalid iff it has more than one lower neighbour. An interior cell is invalid iff it has lower neighbours both north and south, or both east and west. |
| WorldMap.Map.SideOf | src/map.rs:354-364 | The flag loop's comparisons name the one neighbour on each side. |
| WorldMap.Map.BaseAround | src/map.rs:247-253 | The `Base` cells around a cell are a subset of its 8-neighbourhood. |
| WorldMap.Map.CanPlaceRocksInterior | src/map.rs:242-254 | Rocks can go only on an interior cell whose eight surrounding cells are all `Base`, so never on the border. |
| WorldMap.Map.CanPlaceRocksExact | src/map.rs:242-254 | `can_place_rocks` holds iff the cell is `Base`, off the border and all eight surrounding cells are `Base`. |
| WorldMap.Map.PlaceTest | src/map.rs:255-283 | During a run, the reference acceptance of a pick, read on the starting overlay with the earlier placements on it, holds iff the loop's own check passes: the pick is not too close to a placement, and the test holds on the live overlay. |
| WorldMap.Map.PlaceRun | src/map.rs:258-287 | The reference run places at most one cell per remaining attempt, and never more than `max_count`. |
| WorldMap.Map.Attempt | src/map.rs:265-283 | One pass of the loop places the pick iff it is not too close to a placement and passes the test. It advances the reference run by one attempt, and it keeps the placement invariant. |
| WorldMap.Map.PlaceAt | src/map.rs:280-283 | The tile goes on the overlay at the chosen cell, and the cell joins the placements. |
| WorldMap.Map.PlaceRandom | src/map.rs:258-287 | The placements are exactly those of the reference run over the picks: while fewer than `max_count` are placed and attempts remain, each pick is placed iff it is at least `min_distance` (Manhattan) from every earlier placement and passes the test. At most `max_count` cells are placed, in at most `max_attempts` attempts. Placements are pairwise at least `min_distance` apart (Manhattan) and are on `Base`. Each carries the tile and passed the placement test when chosen. The base tiles, the heights and every other overlay cell are unchanged. |
| Pointer.Midpoint | www/pointer.mjs:20-27 | The midpoint is equally far from both points. |
| Pointer.MidpointSymmetric | www/pointer.mjs:20-27 | The midpoint does not depend on the order of the points. |
| Pointer.MidpointUnique | www/pointer.mjs:20-27 | Only the midpoint is equally far from both points. |
| Pointer.NewPoint | www/pointer.mjs:29-33 | A new point has `curr == prev ==` the pointer's position, so its delta is zero. |
| Pointer.Delta | www/pointer.mjs:39-46 | `prev + delta == curr`. |
| Pointer.UpdatePoint | www/pointer.mjs:34-38 | After an update, `prev` is the former `curr`, `curr` is the new position and `delta` is their difference. |
| Pointer.DeltasCompose | www/pointer.mjs:34-46 | The deltas of two updates add up to the whole movement. |
| Pointer.NewGesture | www/pointer.mjs:99-106 | The gesture tracks both pointers from rest. It holds one delta if both pointers share an id, as the id-keyed map would, and two otherwise. |
| Pointer.DeltaMidpoint | www/pointer.mjs:123-130 | The midpoint's movement is the midpoint of the two pointers' deltas. |
| Pointer.UpdateGesture | www/pointer.mjs:140-143 | An update moves the point with the event's id, and the second one when both ids match. An untracked id fails, which is the source's `TypeError`. |
| Pointer.GestureDeltasById | www/pointer.mjs:115-117 | The deltas list one entry per distinct id, in insertion order. The second contact's comes last and replaces the first's when both share an id. |
| Pointer.OneFingerMidpoint | www/pointer.mjs:123-143 | Moving one finger of a resting pinch moves the midpoint by half that finger's movement. |
| Pointer.PinchPayload | www/pointer.mjs:112-138 | The pinch payload carries the midpoint of the current positions and the delta midpoint. |
| Pointer.ChannelOf | www/pointer.mjs:150-158 | A name that is recognised is that channel's name. |
| Pointer.ChannelNamesRoundTrip | www/pointer.mjs:150-158 | Every channel is recognised by its own name. |
| Pointer.Deliveries | www/pointer.mjs:164-171 | A callback reaches every handler of its channel once, in registration order, with the same payload. |
| Pointer.SetEventPlace | www/pointer.mjs:178 | Setting a known id replaces that entry in place. A new id is appended, as in insertion-ordered `Map.set`. |
| Pointer.SetEventIds | www/pointer.mjs:178 | The active ids gain the event's id, ids stay distinct and the size grows by one only for a new id. |
| Pointer.SetEventReplaces | www/pointer.mjs:211 | Recording a move of a tracked pointer replaces its entry in place and keeps the size. |
| Pointer.SetEventAppends | www/pointer.mjs:178 | Recording a new pointer appends it after the others. |
| Pointer.DeleteEventPlace | www/pointer.mjs:227 | Deleting removes exactly the entry with that id, keeping the others in order, and an unknown id changes nothing. |
| Pointer.DeleteEventIds | www/pointer.mjs:227 | The active ids lose the deleted id, ids stay distinct and the size shrinks by one only for a known id. |
| Pointer.Recognizer.constructor | www/pointer.mjs:147-162 | There are no active pointers or sessions, and all seven channels have no handlers. |
| Pointer.Recognizer.Emit | www/pointer.mjs:164-171 | The trace gains one delivery per handler of the channel. |
| Pointer.Recognizer.On | www/pointer.mjs:238-244 | A known channel name appends the handler to that channel, and an unknown name changes nothing. |
| Pointer.Recognizer.OnPointerDown | www/pointer.mjs:177-187 | The pointer is recorded. The first pointer becomes the tap candidate. A second pointer clears the tap, starts a pinch of both pointers in insertion order and emits `pinchStart`. |
| Pointer.Recognizer.OnPointerMove | www/pointer.mjs:189-212 | Every move clears the tap candidate. With no pointers, nothing else happens and the pointer is not added. With one, the first move starts a pan and emits `panStart`, and later moves update it and emit `pan`. With two, the pinch is updated and becomes the pending debounced payload; it throws iff there is no pinch or the id is untracked, and then the pointer is not recorded. |
| Pointer.Recognizer.PinchTimerFires | www/pointer.mjs:2-10 | When the debounce timer fires, the last pending pinch is emitted once, and nothing otherwise. |
| Pointer.Recognizer.OnPointerUp | www/pointer.mjs:214-228 | It emits `tap`, `panEnd` and `pinchEnd` for the sessions that were active, in that order. Then it clears all three sessions and removes the pointer's id. |
| Pointer.Recognizer.EndDeliveriesOrder | www/pointer.mjs:214-223 | A pointer-up reaches each handler of each open session once: all tap handlers first, then the pan-end ones, then the pinch-end ones. |
| Pointer.TapWithoutMove | www/pointer.mjs:177-228 | A press and a release with no move between them deliver exactly one tap, at the press position. |
| Pointer.MoveCancelsTap | www/pointer.mjs:189-228 | A press, a move anywhere and a release deliver `panStart` and `panEnd`, both with zero delta, and no tap. The pan starts from the move itself, so the distance from the press to the first move is never reported. |

## Left out

- Floating point: JavaScript numbers and `Float32Array` entries are modelled as exact reals, so rounding is not modelled.
- `sqrt`-based values are not modelled: `length`, the pinch `scale` and `deltaXY` in `pointer.mjs`, and the renderer's hypotenuse and `ceil`. `Renderer.Render` takes the resulting `distance` as a natural-number parameter.
- The pan `velocity` reads `performance.now()`. Pan payloads carry only the delta.
- WebGL calls (buffer uploads, uniforms, `drawArrays`) are recorded as a ghost log of draws. Shader set-up in `initTileShader` is not modelled.
- `getBoundingClientRect`, `clientWidth` and `clientHeight`, and the canvas size are parameters. `preventDefault` on delivered payloads is not modelled.
- Camera.Camera: the canvas size is fixed for the camera's lifetime. The source reads `gl.canvas.width` and `height` on every call, and www/canvas.mjs:6-21 resizes the canvas when the window changes. After a resize, the source's matrix stays built for the old size until the next `moveTo` or zoom, and `zoomToScreenCoord` unprojects through that stale matrix. The model's invariant that the matrix matches the current size does not cover that window.
- `TileImage.TileBatch`: the vertex and texture buffers and the quad counter belong to each instance here, and each instance starts with fresh buffers and a zero counter. In the source (www/tile.image.mjs:44-52) they are module-level state, shared by every `initTileShader` call, and a second call does not reset the counter. The model is exact for the single shader the application creates, but does not capture two shaders sharing or corrupting one batch.
- gl-matrix is not part of this model. `mat3.projection`, `invert`, `multiply`, `translate` and `scale` are modelled as explicit axis-aligned affine maps, the only kind the camera ever builds.
- The random number generator (`StdRng::seed_from_u64`, `gen_range`) is replaced by an input sequence of picked cells, with the seed left out. `WorldMap.Map.PlaceRandom` requires at least `max_attempts` picks, all in bounds, as `gen_range` guarantees.
- `WorldMap.Map.PlaceRandom`: the `can_place` closure is restricted to the two placement tests the source passes, `can_place_rocks` and `can_place_patch`.
- `Map::generate` is not part of this model: the noise sampling, height curve, clean-up and terraform passes (src/map.rs:381-672) depend on floating point and the `noise` crate.
- The `Tile` enum lives in a module that is not part of this model. A local datatype with the variants used here stands in for it.
- `WorldMap.Map.WalkableCells` and the neighbourhoods return sets: the source's `HashSet` iteration order is unspecified.
- `WorldMap.Map.GetTile`, `GetTile2`, `GetHeight`, `SetTile`, `SetTile2` and `SetHeight` require an in-bounds cell. The source computes `row * col_count + col` without checking the column. A column past the end reads or writes a cell of the next row (`UncheckedColumnWraps`), and only an index past the end of the vector panics. Every caller in the source passes a cell from a neighbourhood, from the grid loops or from `gen_range`, so it is always in bounds.
- Row-major index arithmetic is unbounded: `row * col_count + col` overflowing `usize` is not modelled.
- The `isize` casts in `neighbors_4`/`neighbors_8` and `place_random` are modelled as integers. For grids smaller than `isize::MAX` they cannot wrap.
- `WorldMap.PathDirection`: the combinations that hit `panic!` are a precondition, characterised by `PathDirectionDefined`.
- `Graph.GetPath` takes a ghost rank on the predecessor map as a termination witness. The map built by the search always has one, being the BFS distance.
- `Graph.FindPathToClosest` fixes the path's length and endpoints, but not which of the equally short paths the neighbour order picks.
- The debounce timer (`setTimeout`/`clearTimeout`) is modelled as a last-wins pending pinch plus an explicit `PinchTimerFires` step. Timing itself is not modelled.
- The `point`, `pan`, `tap` and `gesture` closures are modelled as immutable values that the recogniser replaces on update. In-place mutation of a shared closure is not observable in the source.
- Handlers are plain identifiers. What a handler does when called, including re-entrant calls into the recogniser, is not modelled.
- `Pointer.Recognizer.OnPointerMove`: with two active pointers and an untracked id, or no pinch, the source throws a `TypeError` before recording the event. The model reports this as `threw` and leaves the state unchanged.
- The DOM event wiring, and the listeners for `pointercancel`, `pointerleave` and `pointerout`, all call the same pointer-up handler, which is modelled once.
