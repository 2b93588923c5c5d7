/**
  The per-frame renderer, written once for both programs: the flat-colour
  renderer (walls from a fixed four-colour palette, no floor or ceiling
  casting) and the textured one (walls, floor and ceiling sampled from a
  texture set, with flat fallbacks). A `Palette` value selects which.

  Every floating-point quantity of a column is an input (`ColumnRay`);
  everything the program computes from them with integers is modelled.
 */
module Render {
  import opened CInt
  import opened Argb
  import opened Wrappers
  import opened Grid
  import opened Dda
  import opened Screen
  import opened Textures
  import opened FrameBuffer

  const SkyColour: Colour := 0xFF1C1F2B
  const FloorBandColour: Colour := 0xFF252D2A
  /** The flat renderer's wall palette: red, blue, teal, yellow. */
  const WallColours: seq<Colour> := [0xFF9B1B30, 0xFF2F80ED, 0xFF00B894, 0xFFF2C94C]
  /** The textured renderer's wall colour when the tile has no texture. */
  const FallbackWall: Colour := 0xFFFFFFFF
  const FlatFloor: Colour := 0xFF444444
  const FlatCeiling: Colour := 0xFF222222

  datatype Palette = FlatColours | TextureSet(textures: seq<Texture>)

  /**
    The floating-point results the program computes for one column, taken
    as given: the ray direction, the initial side distances and their
    increments, the projected wall height `(int)(SCREEN_HEIGHT / fmax(perpWallDist, 1e-6))`,
    the raw wall hit coordinate `wallX`, and per row the running texture
    position `texPos` and the interpolated floor position.
   */
  datatype ColumnRay = ColumnRay(
    rayDirX: real, rayDirY: real,
    sideDistX: real, sideDistY: real,
    deltaDistX: real, deltaDistY: real,
    lineHeight: nat,
    wallX: real,
    texPos: int -> real,
    floorU: (int, int) -> int,
    floorV: (int, int) -> int)

  /** What a frame is rendered from: the map, the camera position, the palette and each column's ray. */
  datatype Scene = Scene(grid: Grid, posX: real, posY: real, palette: Palette, rays: int -> ColumnRay)

  /**
    Textures must be well formed. The flat renderer indexes its palette
    with `(tile - 1) % 4`, which is only in range for a real wall tile, so
    it needs a walled map and a camera in an interior cell (where the
    collision rule keeps it; see `Grid.MovesStayInterior`).
   */
  predicate ValidScene(s: Scene)
  {
    match s.palette
    case FlatColours => WalledBorder(s.grid) && Interior(TruncToInt(s.posX), TruncToInt(s.posY))
    case TextureSet(ts) => AllValid(ts)
  }

  /** The walk set-up of column `x`: step signs from the ray direction, side-distance increments as given. */
  function ColumnWalk(s: Scene, x: int): (ray: Ray)
    ensures ray.Valid()
    ensures ray.stepX < 0 <==> s.rays(x).rayDirX < 0.0
    ensures ray.stepY < 0 <==> s.rays(x).rayDirY < 0.0
    ensures ray.deltaDistX == s.rays(x).deltaDistX && ray.deltaDistY == s.rays(x).deltaDistY
  {
    var r := s.rays(x);
    Ray(StepSign(r.rayDirX), StepSign(r.rayDirY), r.deltaDistX, r.deltaDistY)
  }

  /** The walk's initial state: the camera's cell `((int)posX, (int)posY)` and the column's initial side distances. */
  function ColumnStart(s: Scene, x: int): Walk
  {
    Walk(TruncToInt(s.posX), TruncToInt(s.posY), s.rays(x).sideDistX, s.rays(x).sideDistY, XSide)
  }

  /**
    The hit of column `x`: the first cell of the walk from the camera's
    cell, advancing along x exactly when `sideDistX < sideDistY`, that is
    off the grid or a wall.
   */
  function CastColumn(s: Scene, x: int): (h: Hit)
    ensures h.cell == Walked(ColumnWalk(s, x), ColumnStart(s, x), NearerAxis, h.steps)
    ensures Stops(s.grid, h.cell)
    ensures h.steps >= 1
    ensures forall k :: 1 <= k < h.steps ==> !Stops(s.grid, Walked(ColumnWalk(s, x), ColumnStart(s, x), NearerAxis, k))
    ensures ValidScene(s) && s.palette.FlatColours? ==> InGrid(h.cell.mapX, h.cell.mapY) && TileAt(s.grid, h.cell.mapX, h.cell.mapY) >= 1
  {
    var ray := ColumnWalk(s, x);
    var start := ColumnStart(s, x);
    if ValidScene(s) && s.palette.FlatColours? then
      InteriorWalkHitsWall(s.grid, ray, start, NearerAxis);
      Trace(s.grid, ray, start, NearerAxis)
    else
      Trace(s.grid, ray, start, NearerAxis)
  }

  /** The flat renderer's `(tile - 1) % 4`: a palette slot for every wall tile, and -1 for the off-grid tile 0. */
  function WallColourIndex(tile: int): (i: int)
    ensures tile >= 0 ==> (0 <= i < |WallColours| <==> tile >= 1)
    ensures tile == 0 ==> i == -1
  {
    CRem(tile - 1, 4)
  }

  /** Darkening for walls hit on a horizontal grid line. */
  function ShadeSide(side: Side, c: Colour): Colour
  {
    if side == YSide then Shade(c) else c
  }

  /**
    The colour written at row `y` of column `x`'s wall slice: for the flat
    renderer the palette entry `(tile - 1) mod 4` of the hit tile, for the
    textured one the texel of texture `tile - 1` when that slot exists and
    the white fallback otherwise; darkened on horizontal-line hits.
   */
  function WallPixel(s: Scene, x: int, y: int): (c: Colour)
    requires ValidScene(s)
    ensures var h := CastColumn(s, x).cell; var tile := TileAt(s.grid, h.mapX, h.mapY);
      s.palette.FlatColours? ==> tile >= 1 && c == ShadeSide(h.side, WallColours[(tile - 1) % 4])
    ensures var h := CastColumn(s, x).cell; var tile := TileAt(s.grid, h.mapX, h.mapY);
      s.palette.TextureSet? && !(1 <= tile <= |s.palette.textures|) ==> c == ShadeSide(h.side, FallbackWall)
    ensures var h := CastColumn(s, x).cell; var tile := TileAt(s.grid, h.mapX, h.mapY); var r := s.rays(x);
      s.palette.TextureSet? && 1 <= tile <= |s.palette.textures| ==>
        c == ShadeSide(h.side, WallTexel(s.palette.textures[tile - 1], r.wallX, h.side, r.rayDirX, r.rayDirY, r.texPos(y)))
  {
    var r := s.rays(x);
    var h := CastColumn(s, x).cell;
    var tile := TileAt(s.grid, h.mapX, h.mapY);
    var base := match s.palette
      case FlatColours => WallColours[WallColourIndex(tile)]
      case TextureSet(ts) =>
        match WallTexture(ts, tile)
        case None => FallbackWall
        case Some(t) => WallTexel(t, r.wallX, h.side, r.rayDirX, r.rayDirY, r.texPos(y));
    ShadeSide(h.side, base)
  }

  /** The floor colour of row `y` of column `x`: the floor texture at that row's floor position, or the flat floor colour. */
  function FloorPixel(ts: seq<Texture>, r: ColumnRay, y: int): (c: Colour)
    requires AllValid(ts)
    ensures |ts| <= 1 ==> c == FlatFloor
    ensures |ts| >= 2 ==> var t := ts[1];
      c == Texel(t, r.floorU(y, t.width) % t.width, r.floorV(y, t.height) % t.height)
  {
    match FloorTexture(ts)
    case None => FlatFloor
    case Some(t) => FloorTexel(t, r.floorU(y, t.width), r.floorV(y, t.height))
  }

  /** The ceiling colour computed in the iteration for floor row `y`, to be written at its mirror row. */
  function CeilingPixel(ts: seq<Texture>, r: ColumnRay, y: int): (c: Colour)
    requires AllValid(ts)
    ensures |ts| <= 1 ==> c == FlatCeiling
    ensures |ts| == 2 ==> c == FloorPixel(ts, r, y)
    ensures |ts| >= 3 ==> var t := ts[2];
      c == Texel(t, r.floorU(y, t.width) % t.width, r.floorV(y, t.height) % t.height)
  {
    match CeilingTexture(ts)
    case None => FlatCeiling
    case Some(t) => FloorTexel(t, r.floorU(y, t.width), r.floorV(y, t.height))
  }

  /**
    The final colour of pixel (x, y) as a closed form: the wall slice; for
    the textured renderer the floor below it and, mirrored about the
    screen's middle, the ceiling above it; the background band elsewhere.
   */
  function ExpectedPixel(s: Scene, x: int, y: int): Colour
    requires ValidScene(s)
  {
    var slice := SliceOf(s.rays(x).lineHeight);
    if slice.drawStart <= y <= slice.drawEnd then WallPixel(s, x, y)
    else if s.palette.TextureSet? && y > slice.drawEnd then FloorPixel(s.palette.textures, s.rays(x), y)
    else if s.palette.TextureSet? && y < ScreenHeight - 1 - slice.drawEnd then
      CeilingPixel(s.palette.textures, s.rays(x), ScreenHeight - 1 - y)
    else Band(y, SkyColour, FloorBandColour)
  }

  /**
    `render_frame`: fill the background, then for each column draw the
    wall slice and, for the textured renderer, the floor and ceiling.
    The result depends only on the scene, not on what the buffer held.
   */
  method RenderFrame(frame: seq<Colour>, s: Scene) returns (pixels: seq<Colour>)
    requires |frame| == PixelCount
    requires ValidScene(s)
    ensures |pixels| == PixelCount
    ensures forall x, y :: 0 <= x < ScreenWidth && 0 <= y < ScreenHeight ==> pixels[Index(x, y)] == ExpectedPixel(s, x, y)
    ensures forall i :: 0 <= i < PixelCount ==> pixels[i] == ExpectedPixel(s, i % ScreenWidth, i / ScreenWidth)
  {
    pixels := FillBackground(frame, SkyColour, FloorBandColour);
    var x := 0;
    while x < ScreenWidth
      invariant 0 <= x <= ScreenWidth
      invariant |pixels| == PixelCount
      invariant forall xx, yy :: 0 <= xx < ScreenWidth && 0 <= yy < ScreenHeight ==>
        pixels[Index(xx, yy)] == if xx < x then ExpectedPixel(s, xx, yy) else Band(yy, SkyColour, FloorBandColour)
    {
      var r := s.rays(x);
      var slice := SliceOf(r.lineHeight);
      pixels := DrawWallSlice(pixels, x, slice, y => WallPixel(s, x, y));
      if s.palette.TextureSet? {
        var ts := s.palette.textures;
        pixels := DrawFloorCeiling(pixels, x, slice, y => FloorPixel(ts, r, y), y => CeilingPixel(ts, r, y));
      }
      x := x + 1;
    }
    forall i | 0 <= i < PixelCount
      ensures pixels[i] == ExpectedPixel(s, i % ScreenWidth, i / ScreenWidth)
    {
      IndexCovers(i);
    }
  }

  /** The flat renderer writes one colour, a palette entry shaded by side, over its whole wall slice. */
  lemma FlatSliceIsUniform(s: Scene, x: int, y1: int, y2: int)
    requires ValidScene(s) && s.palette.FlatColours?
    ensures WallPixel(s, x, y1) == WallPixel(s, x, y2)
    ensures exists k :: 0 <= k < |WallColours| && WallPixel(s, x, y1) == ShadeSide(CastColumn(s, x).cell.side, WallColours[k])
  {
    var h := CastColumn(s, x).cell;
    var k := WallColourIndex(TileAt(s.grid, h.mapX, h.mapY));
    assert WallPixel(s, x, y1) == ShadeSide(h.side, WallColours[k]);
  }

  /** Outside its wall slice, a column of the flat renderer keeps the background: sky above the middle, floor below. */
  lemma FlatColumnLayout(s: Scene, x: int, y: int)
    requires ValidScene(s) && s.palette.FlatColours?
    requires var slice := SliceOf(s.rays(x).lineHeight); y < slice.drawStart || slice.drawEnd < y
    ensures ExpectedPixel(s, x, y) == (if y < ScreenHeight / 2 then SkyColour else FloorBandColour)
  {
  }

  /** An off-grid hit (tile 0) never selects a texture, so the textured renderer falls back to its flat wall colour. */
  lemma OffGridWallUsesFallback(s: Scene, x: int, y: int)
    requires s.palette.TextureSet? && AllValid(s.palette.textures)
    requires var h := CastColumn(s, x).cell; !InGrid(h.mapX, h.mapY)
    ensures WallPixel(s, x, y) == ShadeSide(CastColumn(s, x).cell.side, FallbackWall)
  {
  }

  /**
    With an empty texture set every pixel gets a fixed colour: the
    fallback wall colour (shaded or not) in the slice, the flat floor and
    ceiling colours in their rows, and the background elsewhere.
   */
  lemma NoTexturesRenderFlat(s: Scene, x: int, y: int)
    requires s.palette == TextureSet([])
    ensures var slice := SliceOf(s.rays(x).lineHeight);
      var p := ExpectedPixel(s, x, y);
      && (slice.drawStart <= y <= slice.drawEnd ==> p == FallbackWall || p == Shade(FallbackWall))
      && (slice.drawEnd < y ==> p == FlatFloor)
      && (y < ScreenHeight - 1 - slice.drawEnd ==> p == FlatCeiling)
      && (ScreenHeight - 1 - slice.drawEnd <= y < slice.drawStart ==> p == SkyColour)
  {
  }

  /**
    The ceiling is the mirror `SCREEN_HEIGHT - y - 1` of floor rows
    `drawEnd + 1 ..`, so it reaches only row `drawStart - 2`: in the
    textured renderer the row just above an unclipped wall slice is never
    written by the floor/ceiling loop and keeps the sky background.
   */
  lemma CeilingGapRow(s: Scene, x: int)
    requires ValidScene(s) && s.palette.TextureSet?
    requires SliceOf(s.rays(x).lineHeight).drawStart >= 1
    ensures ExpectedPixel(s, x, SliceOf(s.rays(x).lineHeight).drawStart - 1) == SkyColour
  {
  }
}
