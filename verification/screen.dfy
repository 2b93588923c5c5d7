/**
  The frame buffer's geometry: a row-major array of SCREEN_WIDTH x
  SCREEN_HEIGHT pixels, and the vertical extent of one column's wall
  slice.
 */
module Screen {
  import opened CInt

  const ScreenWidth: int := 800
  const ScreenHeight: int := 600
  const PixelCount: int := ScreenWidth * ScreenHeight

  /** `y * SCREEN_WIDTH + x`: the buffer position of pixel (x, y), which reads back as its column and row. */
  function Index(x: int, y: int): (i: int)
    requires 0 <= x < ScreenWidth && 0 <= y < ScreenHeight
    ensures 0 <= i < PixelCount
    ensures i % ScreenWidth == x && i / ScreenWidth == y
  {
    EuclidUnique(y * ScreenWidth + x, ScreenWidth, y, x);
    y * ScreenWidth + x
  }

  /** Every buffer position is the position of exactly the pixel its quotient and remainder name. */
  lemma IndexCovers(i: int)
    requires 0 <= i < PixelCount
    ensures 0 <= i % ScreenWidth < ScreenWidth && 0 <= i / ScreenWidth < ScreenHeight
    ensures Index(i % ScreenWidth, i / ScreenWidth) == i
  {
    assert i == ScreenWidth * (i / ScreenWidth) + i % ScreenWidth;
  }

  /** The rows `[drawStart, drawEnd]` of a column that show the wall. */
  datatype Slice = Slice(drawStart: int, drawEnd: int)
  {
    /**
      Both ends on screen, on either side of the middle row, and placed
      symmetrically about it unless the slice fills the whole column.
     */
    predicate Valid()
    {
      && 0 <= drawStart <= ScreenHeight / 2 <= drawEnd <= ScreenHeight - 1
      && (drawStart + drawEnd == ScreenHeight || (drawStart == 0 && drawEnd == ScreenHeight - 1))
    }
  }

  /**
    Centres a wall of `lineHeight` rows on the middle row and clamps it to
    the screen. The start is `-lineHeight / 2 + SCREEN_HEIGHT / 2` with
    C's truncating division of the negated height.
   */
  function SliceOf(lineHeight: nat): (s: Slice)
    ensures s.Valid()
    ensures s.drawStart == Max(0, ScreenHeight / 2 - lineHeight / 2)
    ensures s.drawEnd == Min(ScreenHeight - 1, ScreenHeight / 2 + lineHeight / 2)
  {
    var h: int := lineHeight;
    CDivUnique(-h, 2, -(h / 2));
    CDivUnique(h, 2, h / 2);
    var start := CDiv(-h, 2) + CDiv(ScreenHeight, 2);
    var end := CDiv(lineHeight, 2) + CDiv(ScreenHeight, 2);
    Slice(if start < 0 then 0 else start, if end >= ScreenHeight then ScreenHeight - 1 else end)
  }

  /**
    A row of the floor loop lies below the middle row, and its mirror row
    `SCREEN_HEIGHT - y - 1` lies on screen strictly above the slice, with
    at least one row between them.
   */
  lemma MirrorRowAboveSlice(s: Slice, y: int)
    requires s.Valid()
    requires s.drawEnd < y < ScreenHeight
    ensures ScreenHeight / 2 < y
    ensures 0 <= ScreenHeight - y - 1 < s.drawStart - 1
  {
  }
}
