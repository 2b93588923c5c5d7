# Raycaster renderer — Dafny model

This project models the per-frame renderer of a small grid raycaster. The
program draws a first-person view of a 10x10 tile map into an 800x600
ARGB8888 pixel buffer, one screen column at a time. It ships two
near-identical renderers. `src/main.c` paints walls in four flat colours.
`src/textured.c` samples walls, floor and ceiling from a texture set and
falls back to flat colours when a texture is missing. The model writes the
renderer once (`Render.RenderFrame`). A `Palette` value selects the flat
behaviour (`FlatColours`) or the textured one (`TextureSet`).

What is modelled is the integer skeleton of a column:

- the grid walk (DDA) that steps `mapX`/`mapY` until it reaches a wall or
  leaves the grid;
- the clamping of the projected wall height into `drawStart`/`drawEnd`;
- the choice of tile, wall texture, floor texture and ceiling texture, with
  their fallbacks;
- the texel index arithmetic: mirroring, clamping, and C-style remainder
  wrap;
- the buffer writes: background fill, wall slice, floor rows and mirrored
  ceiling rows;
- the ARGB side-shading bit trick.

The floating-point quantities of a column are inputs (`Render.ColumnRay`):
ray direction, side distances and their increments, the projected height
`lineHeight`, the raw hit coordinate `wallX`, and per row the texture
position. Every integer conversion the program applies to them is
modelled exactly over Dafny's `real`, as C's truncating `(int)` cast
(`CInt.TruncToInt`). The interpolated floor position enters one step
later, already scaled by the texture dimension and truncated
(`(int)(currentFloorX * width)` and its y counterpart): any integer is
allowed there, and the wrap into the texture is modelled from that point. C's `/` and `%` truncate
toward zero, so they are written out as `CInt.CDiv` and `CInt.CRem`. Pixels
are `bv32`.

Modules, leaf first: `CInt` (C integer semantics), `Argb` (channels and
shading), `Wrappers` (`Option`), `Grid` (map, walkability, collision rule),
`Dda` (grid walk), `Screen` (pixel index, wall slice), `Textures` (selection
and texel arithmetic), `FrameBuffer` (the write loops) and `Render` (the
unified renderer).

The axis choice of the walk is an arbitrary function of the walk state
(`choose` in `Dda.Trace`). So the termination bound and the exit condition
hold whatever the floating-point comparison answers. `Dda.NearerAxis` is
the program's own comparison `sideDistX < sideDistY`.

## Model

| member | source | states |
|---|---|---|
| `CInt.CDiv` | src/main.c:135 | C's truncating quotient: what is left over is smaller than the divisor and has the dividend's sign |
| `CInt.CDivUnique` | src/textured.c:187 | Those two conditions determine the quotient, so `CDiv` is exactly C's `/` |
| `CInt.CRem` | src/textured.c:291-292 | C's `%`: `a == b*(a/b) + a%b`, magnitude below the divisor, sign of the dividend |
| `CInt.CRemEuclidean` | src/textured.c:291-296 | For a positive divisor, C's remainder is the Euclidean residue or that minus the divisor |
| `CInt.Wrap` | src/textured.c:291-296 | Remainder plus the dimension when negative always lands in `[0, dim)` and equals the Euclidean residue, for every integer |
| `CInt.WrapPeriodic` | src/textured.c:301-306 | Shifting the input by whole multiples of the dimension does not change the wrapped coordinate |
| `CInt.TruncToInt` | src/main.c:27-28 | `(int)` on a floating value discards the fraction, rounding toward zero for both signs |
| `Argb.Shade` | src/main.c:150-154 | Side shading yields alpha 0xFF and each of R, G, B equal to the original byte shifted right by one, with no bit crossing channels |
| `Argb.ShadeHalvesChannels` | src/textured.c:241-244 | Shading any pixel built from channels (a, r, g, b) gives exactly the pixel (0xFF, r/2, g/2, b/2) |
| `Grid.IsWalkable` | src/main.c:25-34 | False outside `[0,MAP_WIDTH)x[0,MAP_HEIGHT)`; inside, true exactly when the tile is 0 |
| `Grid.IsWalkableAt` | src/textured.c:37-46 | With C truncation of world coordinates, a walkable position has both coordinates in `(-1, 10)` |
| `Grid.GMapHasWalledBorder` | src/main.c:12-23 | Every cell of the built-in map's outer ring is a wall |
| `Grid.WalkableCellIsInterior` | src/main.c:12-34 | On a walled map every walkable cell is an interior cell `[1,8]x[1,8]` |
| `Grid.TileAt` | src/textured.c:198-200 | A cell outside the grid reads as tile 0; a cell inside reads its map entry |
| `Grid.TryMove` | src/main.c:241-258 | The new x is taken exactly when `(newX, posY)` is walkable. The new y is taken exactly when `(x', newY)` is walkable, where `x'` is the x just decided. A walkable position stays walkable |
| `Grid.MovesStayInterior` | src/main.c:241-258 | From a walkable start on a walled map, any sequence of attempted moves leaves the camera in an interior cell |
| `Grid.CameraStartIsWalkable` | src/main.c:208-209 | The starting position (2.5, 2.5) is walkable on the built-in map, which has a walled border, and lies in an interior cell |
| `Dda.StepSign` | src/textured.c:127-148 | Step signs are fixed before the loop, are ±1, and are negative exactly for a negative ray component |
| `Dda.Advance` | src/textured.c:154-165 | One iteration changes exactly one of `mapX`/`mapY`, by its step, and `side` records which axis moved |
| `Dda.AdvanceSpendsBudget` | src/main.c:100-113 | Each iteration, on either axis, brings the walk exactly one step closer to leaving the grid |
| `Dda.Stops` | src/textured.c:166-173 | Every off-grid cell ends the walk. On a map without negative tiles the walk ends exactly at the cells the collision test refuses |
| `Dda.Trace` | src/textured.c:150-174 | For any axis choices the hit is the cell the walk reaches after `steps` iterations, and no earlier cell of the walk passes the exit test, so it is the first wall or off-grid cell. It takes at least 1 and at most `MAP_WIDTH + MAP_HEIGHT` iterations, fewer than the exit budget for an in-grid start. It moves only in the step directions, with Manhattan displacement equal to the iteration count |
| `Dda.InteriorWalkHitsWall` | src/main.c:100-122 | On a walled map, a walk from an interior cell stops inside the grid on a tile ≥ 1, never in the out-of-grid branch |
| `Dda.EastRayStopsOnBlock` | src/textured.c:150-174 | From cell (2, 3) heading +x on the built-in map, the walk stops after one step on the block tile at (3, 3), not on the border beyond it |
| `Dda.CentreRayHitsEastBorder` | src/main.c:98-122 | From camera (2.5, 2.5) looking along +x on the built-in map, the centre ray stops at cell (9, 2) on a vertical line after 7 iterations |
| `Screen.Index` | src/textured.c:245 | `y*SCREEN_WIDTH + x` is within `[0, SCREEN_WIDTH*SCREEN_HEIGHT)` for an on-screen pixel and decodes back to `(x, y)` |
| `Screen.IndexCovers` | src/main.c:41-44 | Every buffer position is the index of exactly one on-screen pixel |
| `Screen.SliceOf` | src/textured.c:186-196 | For any `lineHeight ≥ 0`, `0 ≤ drawStart ≤ SCREEN_HEIGHT/2 ≤ drawEnd ≤ SCREEN_HEIGHT-1`. The ends are `max(0, 300 - h/2)` and `min(599, 300 + h/2)`, with the negated C division included. The slice is symmetric about row 300 unless it fills the column |
| `Screen.MirrorRowAboveSlice` | src/textured.c:275-313 | Floor rows lie below the middle row; each mirrored `ceilY` is on screen and at least two rows above `drawStart` |
| `Textures.WallTexture` | src/textured.c:198-202 | A wall texture is chosen exactly when `1 ≤ tile ≤ texture_count`; it is slot `tile-1` and is well formed |
| `Textures.FloorTexture` | src/textured.c:110 | The floor texture exists exactly when there are more than one texture, and is slot 1 |
| `Textures.CeilingTexture` | src/textured.c:111 | The ceiling texture is slot 2 with more than two textures and otherwise whatever the floor uses |
| `Textures.TexelIndex` | src/textured.c:239 | `texY*width + texX` lies in `[0, width*height)` and within C's `int` range for in-range coordinates, and decodes back to them |
| `Textures.WallFraction` | src/textured.c:214 | `wallX - floor(wallX)` is in `[0, 1)` and differs from `wallX` by an integer |
| `Textures.Mirror` | src/textured.c:219-222 | The mirrored column `width-u-1` stays in `[0, width)` |
| `Textures.MirrorInvolutive` | src/textured.c:219-222 | Mirroring a column twice gives the column back, so mirroring loses no column |
| `Textures.WallColumn` | src/textured.c:216-223 | The wall texture column is in `[0, width)`. It is the truncated scaled fraction, mirrored for +x vertical-line hits and -y horizontal-line hits |
| `Textures.ClampRow` | src/textured.c:233-237 | Any `(int)texPos` is clamped into `[0, height-1]`; an in-range row is kept, a low one becomes 0, a high one `height-1` |
| `Textures.ClampRowIdempotent` | src/textured.c:233-237 | Clamping an already clamped row changes nothing |
| `Textures.WallTexel` | src/textured.c:216-239 | The wall texel is a pixel of the texture. It is in the column `WallColumn` chooses, at row `(int)texPos` when that row exists, else at row 0 or `height-1` |
| `Textures.FloorTexel` | src/textured.c:289-308 | The floor/ceiling texel is read at the Euclidean residues of the truncated scaled coordinates, for any pair of integers, negative ones included |
| `FrameBuffer.FillBackground` | src/main.c:36-47 | Every index in `[0, SCREEN_WIDTH*SCREEN_HEIGHT)` is written. Rows `y < SCREEN_HEIGHT/2` get `sky` and all others `floor`, whatever the buffer held |
| `FrameBuffer.DrawWallSlice` | src/textured.c:228-246 | Exactly rows `[drawStart, drawEnd]` of column `x` get the row's wall colour; no other pixel changes |
| `FrameBuffer.DrawFloorCeiling` | src/textured.c:273-314 | Column `x` only: rows below `drawEnd` get the floor colour, and rows above `SCREEN_HEIGHT-1-drawEnd` get the ceiling colour of their mirror row. The wall slice and all other pixels are untouched |
| `Render.ColumnWalk` | src/textured.c:127-148 | The column's steps are ±1 and negative exactly for a negative ray component; the increments are the column's `deltaDist` |
| `Render.CastColumn` | src/main.c:67-122 | The hit is the first cell of the walk from `((int)posX, (int)posY)` under the program's axis rule that passes the exit test, reached after at least one step. In the flat renderer's setting it lies inside the grid with tile ≥ 1 |
| `Render.WallColourIndex` | src/main.c:149 | `(tile-1) % 4` with C remainder is a palette slot exactly for tiles ≥ 1; for the off-grid tile 0 it is -1 |
| `Render.WallPixel` | src/textured.c:198-244 | Textured renderer: the texel of texture `tile-1` when that slot exists, otherwise white. Flat renderer (`src/main.c:146-154`): the hit tile is ≥ 1 and the colour is palette entry `(tile-1) mod 4`. Both are shaded on horizontal-line hits |
| `Render.FloorPixel` | src/textured.c:287-297 | With fewer than two textures the floor is 0xFF444444. Otherwise it is the texel of texture 1 at the Euclidean residues of the truncated floor coordinates |
| `Render.CeilingPixel` | src/textured.c:288-308 | With fewer than two textures the ceiling is 0xFF222222, and with exactly two it equals the floor colour. Otherwise it is the texel of texture 2 at the Euclidean residues |
| `Render.RenderFrame` | src/textured.c:104-316 | Every pixel of the frame equals the closed-form layout `ExpectedPixel`. That is wall slice, then floor below and mirrored ceiling above (textured only), then background band, independent of the previous buffer contents |
| `Render.FlatSliceIsUniform` | src/main.c:149-160 | The flat renderer writes one palette colour, shaded by side, over the whole slice |
| `Render.FlatColumnLayout` | src/main.c:134-160 | Outside its slice a flat-renderer column keeps the background: sky above the middle row, floor colour below |
| `Render.OffGridWallUsesFallback` | src/textured.c:198-204 | An off-grid hit selects no texture, so the wall is the white fallback (shaded by side) |
| `Render.NoTexturesRenderFlat` | src/textured.c:204-288 | With no textures every pixel gets a fixed colour. The slice is the fallback wall colour, floor rows 0xFF444444, ceiling rows 0xFF222222, and the rest the sky band |
| `Render.CeilingGapRow` | src/textured.c:275-313 | In the textured renderer, when the slice does not start at row 0, the row just above it is never written by the floor/ceiling loop and shows the sky colour |

## Behaviour worth knowing

- On the built-in map (`src/main.c:12-23`) row 2 is empty. The centre ray
  of the first frame starts at (2.5, 2.5) and heads along +x, so it runs the
  length of that row and stops on the east border at cell (9, 2). It never
  meets the inner block (`Dda.CentreRayHitsEastBorder`).
- In the textured renderer the ceiling rows are the mirrors
  `SCREEN_HEIGHT - y - 1` of the floor rows `y >= drawEnd + 1`. They
  therefore end at row `drawStart - 2`, and row `drawStart - 1` keeps the
  sky background (`Render.CeilingGapRow`).

## Left out

- SDL set-up, window, renderer and streaming texture, the event loop and
  presentation in both `main` functions: I/O over a library outside the
  model.
- `load_texture` / `unload_texture`: image decoding and manual memory
  management. Textures enter as values `Texture(width, height, pixels)`
  with `width > 0`, `height > 0` and `width*height` pixels. The pixel
  count must fit a C `int` (at most 0x7FFFFFFF), because the program
  computes texel indices in `int`. An image too large for that has no
  defined behaviour in the program and is not a valid texture here. The texture
  count is the length of that sequence rather than a separate argument.
- All floating-point numerics are inputs of `Render.ColumnRay` and are not
  computed. This covers `cameraX`, the ray direction, `deltaDist` and the
  1e30 sentinel, the initial `sideDist`, `perpWallDist`, the float division
  behind `lineHeight`, `wallX`, the per-row `texPos`/`step` accumulation,
  `floorXWall`/`floorYWall`, the floor interpolation weight, and the
  product and cast `(int)(currentFloorX * width)` of each floor and
  ceiling sample (an arbitrary integer per row and dimension). IEEE
  rounding is not modelled either. In particular, `wallX - floor(wallX)`
  rounding up to 1.0 is out of scope: the model's fraction is an exact real.
- `CInt.TruncToInt`: a double outside the `int` range makes C's cast
  undefined. The model's conversion is the mathematical truncation.
- Camera rotation with `cos`/`sin` and the frame-time-based move distance.
  The collision rule is modelled (`Grid.TryMove`) with the candidate
  position as input.
- The stateless, deterministic nature of rendering needs no separate
  lemma. `Render.RenderFrame`'s result is fixed by the scene alone, so two
  calls on the same scene agree.
