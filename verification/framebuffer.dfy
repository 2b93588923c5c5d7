/**
  The writes into the frame buffer: the background fill, the wall-slice
  loop and the floor/ceiling loop of one column. The colours are passed in
  as functions of the row so that both renderers share these loops.
 */
module FrameBuffer {
  import opened Argb
  import opened Screen

  /** The colour the background fill gives row `y`: sky for the upper half, floor for the rest. */
  function Band(y: int, sky: Colour, floor: Colour): Colour
  {
    if y < ScreenHeight / 2 then sky else floor
  }

  /** `fill_background`: every row of every column gets its band colour, whatever the buffer held before. */
  method FillBackground(buf: seq<Colour>, sky: Colour, floor: Colour) returns (pixels: seq<Colour>)
    requires |buf| == PixelCount
    ensures |pixels| == PixelCount
    ensures forall x, y :: 0 <= x < ScreenWidth && 0 <= y < ScreenHeight ==> pixels[Index(x, y)] == Band(y, sky, floor)
    ensures forall i :: 0 <= i < PixelCount ==> pixels[i] == (if i < ScreenWidth * (ScreenHeight / 2) then sky else floor)
  {
    pixels := buf;
    var y := 0;
    while y < ScreenHeight
      invariant 0 <= y <= ScreenHeight
      invariant |pixels| == PixelCount
      invariant forall xx, yy :: 0 <= xx < ScreenWidth && 0 <= yy < y ==> pixels[Index(xx, yy)] == Band(yy, sky, floor)
    {
      var colour := if y < ScreenHeight / 2 then sky else floor;
      var rowStart := y * ScreenWidth;
      var x := 0;
      while x < ScreenWidth
        invariant 0 <= x <= ScreenWidth
        invariant |pixels| == PixelCount
        invariant forall xx, yy :: 0 <= xx < ScreenWidth && 0 <= yy < y ==> pixels[Index(xx, yy)] == Band(yy, sky, floor)
        invariant forall xx :: 0 <= xx < x ==> pixels[Index(xx, y)] == colour
      {
        assert rowStart + x == Index(x, y);
        pixels := pixels[rowStart + x := colour];
        x := x + 1;
      }
      y := y + 1;
    }
    forall i | 0 <= i < PixelCount
      ensures pixels[i] == (if i < ScreenWidth * (ScreenHeight / 2) then sky else floor)
    {
      IndexCovers(i);
    }
  }

  /**
    The wall-slice loop of column `x`: rows `drawStart..drawEnd` of that
    column get `colour(row)`; every other pixel keeps its value.
   */
  method DrawWallSlice(pixels: seq<Colour>, x: int, slice: Slice, colour: int -> Colour) returns (out: seq<Colour>)
    requires |pixels| == PixelCount
    requires 0 <= x < ScreenWidth
    requires slice.Valid()
    ensures |out| == PixelCount
    ensures forall xx, yy :: 0 <= xx < ScreenWidth && 0 <= yy < ScreenHeight ==>
      out[Index(xx, yy)] == if xx == x && slice.drawStart <= yy <= slice.drawEnd then colour(yy) else pixels[Index(xx, yy)]
  {
    out := pixels;
    var y := slice.drawStart;
    while y <= slice.drawEnd
      invariant slice.drawStart <= y <= slice.drawEnd + 1
      invariant |out| == PixelCount
      invariant forall xx, yy :: 0 <= xx < ScreenWidth && 0 <= yy < ScreenHeight ==>
        out[Index(xx, yy)] == if xx == x && slice.drawStart <= yy < y then colour(yy) else pixels[Index(xx, yy)]
    {
      out := out[Index(x, y) := colour(y)];
      y := y + 1;
    }
  }

  /**
    The floor/ceiling loop of column `x`: for every row `y` below the slice
    it writes `floorColour(y)` at row `y` and `ceilColour(y)` at the mirrored
    row `SCREEN_HEIGHT - y - 1`. Rows `drawStart..drawEnd` are never touched.
   */
  method DrawFloorCeiling(pixels: seq<Colour>, x: int, slice: Slice, floorColour: int -> Colour, ceilColour: int -> Colour)
    returns (out: seq<Colour>)
    requires |pixels| == PixelCount
    requires 0 <= x < ScreenWidth
    requires slice.Valid()
    ensures |out| == PixelCount
    ensures forall xx, yy :: 0 <= xx < ScreenWidth && 0 <= yy < ScreenHeight ==>
      out[Index(xx, yy)] ==
        if xx == x && yy > slice.drawEnd then floorColour(yy)
        else if xx == x && yy < ScreenHeight - 1 - slice.drawEnd then ceilColour(ScreenHeight - 1 - yy)
        else pixels[Index(xx, yy)]
    ensures forall yy :: slice.drawStart <= yy <= slice.drawEnd ==> out[Index(x, yy)] == pixels[Index(x, yy)]
  {
    out := pixels;
    var floorStart := slice.drawEnd + 1;
    if floorStart < 0 {
      floorStart := 0;
    }
    var y := floorStart;
    while y < ScreenHeight
      invariant floorStart <= y <= ScreenHeight
      invariant |out| == PixelCount
      invariant forall xx, yy :: 0 <= xx < ScreenWidth && 0 <= yy < ScreenHeight ==>
        out[Index(xx, yy)] ==
          if xx == x && floorStart <= yy < y then floorColour(yy)
          else if xx == x && ScreenHeight - y <= yy < ScreenHeight - floorStart then ceilColour(ScreenHeight - 1 - yy)
          else pixels[Index(xx, yy)]
    {
      out := out[Index(x, y) := floorColour(y)];
      var ceilY := ScreenHeight - y - 1;
      if ceilY >= 0 {
        out := out[Index(x, ceilY) := ceilColour(y)];
      }
      y := y + 1;
    }
  }
}
