/**
  Textures and the integer side of sampling them: which texture a wall,
  the floor and the ceiling use, and how a texel coordinate is turned into
  an index into the texture's pixels.
 */
module Textures {
  import opened CInt
  import opened Argb
  import opened Wrappers
  import opened Dda

  /** The largest value of a C `int` on the platforms the program targets. */
  const IntMax: int := 0x7FFF_FFFF

  /** A decoded image: `width x height` pixels, row-major, top row first. */
  datatype Texture = Texture(width: int, height: int, pixels: seq<Colour>)
  {
    /**
      Positive dimensions, one pixel per texel, and a pixel count that fits
      a C `int`, so the index `texY * width + texX` never overflows.
     */
    predicate Valid()
    {
      width > 0 && height > 0 && |pixels| == width * height && width * height <= IntMax
    }
  }

  predicate AllValid(ts: seq<Texture>)
  {
    forall i :: 0 <= i < |ts| ==> ts[i].Valid()
  }

  /** The texture of a wall tile: slot `tile - 1` when the tile numbers an existing slot, none otherwise. */
  function WallTexture(ts: seq<Texture>, tile: int): (o: Option<Texture>)
    ensures o.Some? <==> 1 <= tile <= |ts|
    ensures o.Some? ==> o.value == ts[tile - 1]
    ensures AllValid(ts) && o.Some? ==> o.value.Valid()
  {
    if tile > 0 && tile <= |ts| then Some(ts[tile - 1]) else None
  }

  /** The floor texture is slot 1, present only when there are at least two textures. */
  function FloorTexture(ts: seq<Texture>): (o: Option<Texture>)
    ensures o.Some? <==> |ts| > 1
    ensures o.Some? ==> o.value == ts[1]
  {
    if |ts| > 1 then Some(ts[1]) else None
  }

  /** The ceiling texture is slot 2, and with fewer than three textures it is whatever the floor uses. */
  function CeilingTexture(ts: seq<Texture>): (o: Option<Texture>)
    ensures |ts| > 2 ==> o == Some(ts[2])
    ensures |ts| <= 2 ==> o == FloorTexture(ts)
    ensures o.Some? <==> |ts| > 1
  {
    if |ts| > 2 then Some(ts[2]) else FloorTexture(ts)
  }

  lemma MulBelow(w: int, v: int, h: int)
    requires w > 0 && 0 <= v < h
    ensures v * w + w <= h * w
  {
    assert h * w == v * w + (h - v) * w;
    MulGrows(w, h - v);
  }

  /** `texY * width + texX`: the position of texel (u, v), which reads back as its column and row. */
  function TexelIndex(t: Texture, u: int, v: int): (i: int)
    requires t.Valid()
    requires 0 <= u < t.width && 0 <= v < t.height
    ensures 0 <= i < |t.pixels| && i <= IntMax
    ensures i % t.width == u && i / t.width == v
  {
    MulBelow(t.width, v, t.height);
    EuclidUnique(v * t.width + u, t.width, v, u);
    v * t.width + u
  }

  function Texel(t: Texture, u: int, v: int): Colour
    requires t.Valid()
    requires 0 <= u < t.width && 0 <= v < t.height
  {
    t.pixels[TexelIndex(t, u, v)]
  }

  /** `wallX - floor(wallX)`: the fractional position of the hit along the wall face. */
  function WallFraction(wallX: real): (f: real)
    ensures 0.0 <= f < 1.0
    ensures (wallX - f).Floor as real == wallX - f
  {
    var n := wallX.Floor;
    assert wallX - (wallX - n as real) == n as real;
    assert (n as real).Floor == n;
    wallX - n as real
  }

  /** `width - u - 1`: reading a texture row from the other end. */
  function Mirror(u: int, width: int): (m: int)
    requires 0 <= u < width
    ensures 0 <= m < width
    ensures u + m == width - 1
  {
    width - u - 1
  }

  lemma MirrorInvolutive(u: int, width: int)
    requires 0 <= u < width
    ensures Mirror(Mirror(u, width), width) == u
  {
  }

  /** The program mirrors the texture column for a vertical-line hit by a ray going +x, and a horizontal-line hit by a ray going -y. */
  predicate Mirrored(side: Side, rayDirX: real, rayDirY: real)
  {
    (side == XSide && rayDirX > 0.0) || (side == YSide && rayDirY < 0.0)
  }

  lemma NonNegativeProduct(x: real, y: real)
    requires x >= 0.0 && y >= 0.0
    ensures x * y >= 0.0
  {
  }

  lemma PositiveProduct(x: real, y: real)
    requires x > 0.0 && y > 0.0
    ensures x * y > 0.0
  {
  }

  /** A fraction of a positive width, truncated, is a column of that width. */
  lemma ScaledFraction(f: real, width: int)
    requires 0.0 <= f < 1.0 && width > 0
    ensures 0 <= TruncToInt(f * width as real) < width
  {
    var w := width as real;
    NonNegativeProduct(f, w);
    PositiveProduct(1.0 - f, w);
    assert (1.0 - f) * w == w - f * w;
    var x := f * w;
    assert 0.0 <= x < w;
    assert TruncToInt(x) as real <= x;
  }

  /**
    The texture column of a wall hit: the fractional hit position scaled
    to the texture width and truncated, then mirrored when the approach
    direction calls for it.
   */
  function WallColumn(t: Texture, wallX: real, side: Side, rayDirX: real, rayDirY: real): (u: int)
    requires t.Valid()
    ensures 0 <= u < t.width
    ensures var plain := TruncToInt(WallFraction(wallX) * t.width as real);
      u == (if Mirrored(side, rayDirX, rayDirY) then t.width - 1 - plain else plain)
  {
    var f := WallFraction(wallX);
    ScaledFraction(f, t.width);
    var u := TruncToInt(f * t.width as real);
    if Mirrored(side, rayDirX, rayDirY) then Mirror(u, t.width) else u
  }

  /** The clamp applied to `(int)texPos`: any row index is forced into `[0, height - 1]`, and one already there is kept. */
  function ClampRow(v: int, height: int): (r: int)
    requires height > 0
    ensures 0 <= r < height
    ensures 0 <= v < height ==> r == v
    ensures v < 0 ==> r == 0
    ensures v >= height ==> r == height - 1
  {
    var r := if v < 0 then 0 else v;
    if r >= height then height - 1 else r
  }

  lemma ClampRowIdempotent(v: int, height: int)
    requires height > 0
    ensures ClampRow(ClampRow(v, height), height) == ClampRow(v, height)
  {
  }

  /** The wall texel for one row: the column from WallColumn, the row from the running texture position, clamped. */
  function WallTexel(t: Texture, wallX: real, side: Side, rayDirX: real, rayDirY: real, texPos: real): (c: Colour)
    requires t.Valid()
    ensures c in t.pixels
    ensures var u := WallColumn(t, wallX, side, rayDirX, rayDirY); var row := TruncToInt(texPos);
      && (0 <= row < t.height ==> c == Texel(t, u, row))
      && (row < 0 ==> c == Texel(t, u, 0))
      && (row >= t.height ==> c == Texel(t, u, t.height - 1))
  {
    var u := WallColumn(t, wallX, side, rayDirX, rayDirY);
    var v := ClampRow(TruncToInt(texPos), t.height);
    Texel(t, u, v)
  }

  /**
    The floor or ceiling texel for the truncated, texture-scaled world
    coordinates `(int)(floorX * width)` and `(int)(floorY * height)`: each
    is wrapped with C's remainder plus a fix-up for negative results, so
    any pair of integers selects the texel at their Euclidean residues.
   */
  function FloorTexel(t: Texture, scaledX: int, scaledY: int): (c: Colour)
    requires t.Valid()
    ensures c == Texel(t, scaledX % t.width, scaledY % t.height)
  {
    var u := Wrap(scaledX, t.width);
    var v := Wrap(scaledY, t.height);
    Texel(t, u, v)
  }
}
