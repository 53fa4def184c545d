# Platformer player kinematics

A model of the simulation core of a small pygame platformer (`main.py`). A
level is an integer tile matrix. Every cell whose id is not `-1` becomes a
solid 32 x 32 rectangle. A single 32 x 32 player moves against those
rectangles once per frame:

- `move` turns the held keys into a horizontal velocity of -5, 0 or +5.
  Right overrides left. A jump sets the vertical velocity to -10, but only
  while the player is on the ground.
- `update` first adds gravity (0.5) to the vertical velocity. It then
  shifts the rectangle horizontally and clamps it against every tile it
  overlaps, in the direction of motion. Last, it shifts the rectangle
  vertically and clamps again. A vertical clamp zeroes the vertical
  velocity, and a floor hit sets `on_ground`.

Modules:

- `Geometry`: pygame's `Rect` as a value (left, top, width, height) and
  `colliderect` as strict overlap of half-open rectangles. Rectangles that
  only share an edge do not collide.
- `TileGrid`: the nested construction loop, `BuildTiles`. It is proved
  equal to the specification function `SolidTiles`. Lemmas then state
  what that list contains and in what order.
- `Kinematics`: the two clamping passes as left folds over the tile list,
  `SweepX` and `SweepY`. One step of each fold is one iteration of the
  source's `for tile in tiles` loop (`ClampX`, `ClampY`). The lemmas state
  the properties of each pass.
- `Players`: the `Player` class. Its fields `x`, `y`, `velX`, `velY` and
  `onGround` are updated in place by `Move` and `Update`. `Update` runs
  its two passes through `MoveHorizontally` and `MoveVertically`. The loop
  in each of those is tied to its fold by a loop invariant: "the rest of
  the fold from the current state equals the whole fold from the starting
  state".
- `Level`: a bridge lemma. It shows that the tile list the grid builds
  meets what the clamping lemmas ask of the tiles.

Width and height are fixed at 32, so setting `right` or `bottom` in the
source changes only `x` or `y`. The global tile list becomes a read-only
parameter of `Update`. The vertical velocity is a `real`, because gravity
is 0.5. The float-to-integer conversion pygame applies at `rect.y +=
vel_y` is the parameter `toPixel` of `Update`, and no property of it is
assumed.

`main.py` appends no world-boundary tiles, only the matrix's solid cells.
Its two passes keep the body clear of every tile in the case the game
meets. The body must start the frame clear of every tile. The tiles must
be the grid's tiles: positive width, height 32, top a multiple of 32
(`SolidTilesFitSweeps`). Each shift must go at most one body width or
height in its direction of motion. The run speed 5 meets this bound;
for the vertical shift it is a hypothesis, because the pixel conversion
is abstract. In that case:

- the horizontal pass ends clear (`SweepXNoPenetration`);
- so does the vertical pass (`SweepYNoPenetration`);
- so the next frame starts clear again. `Update` states this for the
  whole frame.

Outside that case there is no such guarantee:

- when the body already overlaps tiles (a spawn point inside a wall, for
  instance), a later clamp can push it back into a tile that an earlier
  iteration of the same loop has already passed
  (`SweepXReentersPassedTile`);
- a horizontal move of more than one body width can do the same
  (`SweepXFastMovePenetrates`);
- tiles off the 32-pixel grid can leave a landed body inside another tile
  (`SweepYMisalignedPenetrates`).

What holds for every pass is the following. A tile the body was clamped
against is never re-entered during the same pass
(`SweepXClearOfClampedTile`). The vertical pass clamps against at most one
tile (`SweepYFirstContact`).

`Update` follows the source's `update` step by step. It delegates the two
passes to `MoveHorizontally` and `MoveVertically`, each of which keeps the
source's loop.

## Model

| member | source | states |
|---|---|---|
| TileGrid.BuildTiles | main.py:35-39 | The nested row/column loop produces exactly the specification list `SolidTiles` of the matrix. |
| TileGrid.SolidTiles | main.py:35-39 | The reference list of solid tiles, as a fold over rows and cells. `BuildTiles`'s loop invariants tie its loops to it. |
| TileGrid.SolidTilesAreSolidCells | main.py:36-39 | Every listed rectangle is the 32 x 32 rectangle at (col*32, row*32) of a cell of the matrix whose id is not -1. |
| TileGrid.TileListedIffSolid | main.py:36-39 | For every cell of the matrix, its rectangle is in the list if and only if its id is not -1. |
| TileGrid.SolidTilesRowMajor | main.py:35-39 | The list is strictly ordered row-major: an earlier row first, and within a row an earlier column first. So no cell contributes two rectangles. |
| Players.Player.constructor | main.py:43-47 | A new player stands at the given position with both velocities zero and not on the ground. |
| Players.Player.Move | main.py:49-56 | velX is 0 with no direction key, -5 with only left held, and +5 whenever right is held. velY becomes the jump strength exactly when space is held and the player is on the ground, and is unchanged otherwise. Position and onGround are unchanged. |
| Players.Player.MoveHorizontally | main.py:62-69 | x ends at the horizontal fold of the shifted x. It stays at the shifted x when velX is 0 and never passes it in the direction of motion. A body that started clear of every tile and moves by at most its width ends clear of every tile. Only x changes. |
| Players.Player.MoveVertically | main.py:71-82 | (y, velY, onGround) ends at the vertical fold of the shifted y, starting from onGround false. onGround holds exactly when velY > 0 and the shifted body overlaps a tile. velY ends as 0 or unchanged. If the body started clear of every grid-aligned tile and the shift goes at most 32 pixels in the direction of velY, the body ends clear of every tile. Only the vertical state changes. |
| Players.Player.Update | main.py:58-82 | Gravity is added once, before any movement. The new x is the horizontal pass applied to the shifted x at the old y. The new (y, velY, onGround) is the vertical pass at the new x, starting from onGround false. velX is unchanged. x never moves past the shifted position in the direction of motion, and stays at it when velX is 0. onGround holds exactly when the player was falling and the shifted body overlapped a tile. velY ends as either 0 or the old velY plus gravity. Whole frame: suppose the body started clear of every tile, abs(velX) <= 32, the tiles have positive width and are grid-aligned (height 32, top a multiple of 32), and the vertical shift goes at most 32 pixels in the direction of velY (none when velY is 0). Then the body ends the frame clear of every tile. |
| Geometry.Collides | main.py:65 | `colliderect`: strict overlap of half-open rectangles on both axes. It is the test both loops apply to each tile. |
| Kinematics.SweepX | main.py:63-69 | The reference fold of the horizontal loop: one ClampX step per tile, in list order. `MoveHorizontally`'s loop invariant ties its loop to it. |
| Kinematics.SweepY | main.py:74-82 | The reference fold of the vertical loop: one ClampY step per tile, in list order. `MoveVertically`'s loop invariant ties its loop to it. |
| Kinematics.ClampX | main.py:65-69 | One horizontal step moves the body only on contact, and only while it moves horizontally, and only against the direction of motion. After a clamp the body touches the tile's edge and no longer overlaps it. |
| Kinematics.SweepXStationary | main.py:62-69 | With zero horizontal velocity no clamp fires, so x stays at its shifted value. |
| Kinematics.SweepXBacksOff | main.py:63-69 | With velX > 0 the final x is at most the shifted x. With velX < 0 it is at least the shifted x. |
| Kinematics.SweepXNoContact | main.py:63-69 | If the shifted body overlaps no tile, the horizontal pass leaves x unchanged. |
| Kinematics.SweepXClearOfClampedTile | main.py:64-69 | A tile the body was clamped against at some step does not overlap the body at the end of the pass: later clamps never re-enter it. |
| Kinematics.SweepXRestsOnTileEdge | main.py:64-69 | If the pass moved the body, the body ends flush against the edge of some tile, with its leading edge for the direction of motion. |
| Kinematics.SweepXNoPenetration | main.py:62-69 | A body clear of every tile, moving by at most its width in either direction, ends the horizontal pass clear of every tile (tiles of positive width). |
| Kinematics.SweepXReentersPassedTile | main.py:64-69 | A concrete case. At x = 125 the body overlaps both tiles. At the shifted x = 130 it is clear of the first tile. The second tile then clamps it to x = 96, where it overlaps the first tile again, which the loop has already passed. |
| Kinematics.SweepXFastMovePenetrates | main.py:63-69 | A concrete case showing the speed bound is needed. A body clear of both tiles moves right by 70, more than its width, and ends the pass inside the first tile. |
| Kinematics.ClampY | main.py:75-82 | One vertical step changes the state only on contact while moving. It then zeroes velY and leaves the body out of the tile: on the tile's top when falling (setting onGround), under its bottom when rising. |
| Kinematics.FirstContact | main.py:74-75 | The index returned is the first tile in list order that overlaps the body, or the list length when none does. |
| Kinematics.SweepYSettled | main.py:74-82 | Once velY is 0, the rest of the vertical pass changes nothing. |
| Kinematics.SweepYFirstContact | main.py:72-82 | The vertical pass clamps against at most one tile, the first overlapping one in list order. Falling lands on its top with onGround set. Rising stops under its bottom. Otherwise the state is unchanged. |
| Kinematics.LandedIffDownwardContact | main.py:73-79 | Starting from onGround false, the pass ends with onGround true if and only if velY > 0 and the shifted body overlaps some tile. There is no carry-over from the previous frame. |
| Kinematics.SweepYNoPenetration | main.py:72-82 | A body clear of every grid-aligned tile (height 32, top a multiple of 32), shifted at most 32 pixels in the direction of velY and not at all when velY is 0, ends the vertical pass clear of every tile. |
| Kinematics.SweepYMisalignedPenetrates | main.py:74-82 | A concrete case showing alignment is needed. A body at y = 0 is clear of two tiles that are off the grid. Shifted down to y = 10 while falling, it ends the vertical pass inside the second tile. |
| Level.SolidTilesFitSweeps | main.py:35-39 | Every rectangle the grid builds has positive width, height 32 and a top that is a multiple of 32. So the built tile list meets the clamping lemmas' hypotheses on the tiles. |
| Kinematics.StoppedIffContact | main.py:76-82 | For a moving body, velY ends at 0 if and only if the shifted body overlaps some tile. Otherwise the whole vertical state is unchanged. |

## Left out

- pygame start-up, the window, the clock, the event loop and all drawing (`Player.draw`, drawing the tiles). They are I/O and library calls.
- `load_tile_map`, the CSV reader: file I/O. The model takes the parsed matrix as a `seq<seq<int>>`.
- Players.Player.Update: the float-to-integer conversion pygame performs when `rect.y` is given a fractional value is a parameter (`toPixel`). No property of it is assumed, so nothing is proved about which pixel a fractional move lands on.
- Rectangle coordinates are unbounded integers. pygame stores them as 32-bit C integers, whose overflow is not modelled.
- `colliderect` returns false for rectangles of zero width or height. That rule is not modelled. The lemmas hold for any rectangles (SweepXNoPenetration asks only for tiles of positive width, SweepYNoPenetration for grid-aligned tiles), but `Collides` agrees with pygame only for rectangles of positive width and height, which is what the grid builds and what the player's body is.
- The module-level game loop that calls `move` and then `update` each frame. It is I/O-driven and has no state of its own beyond the player.
