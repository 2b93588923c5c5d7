/**
  The tile map both renderers draw, the walkability test the camera
  movement uses, and the collision rule built on it.
 */
module Grid {
  import opened CInt

  const MapWidth: int := 10
  const MapHeight: int := 10

  predicate IsGrid(cells: seq<seq<int>>)
  {
    |cells| == MapHeight && forall row :: 0 <= row < |cells| ==> |cells[row]| == MapWidth
  }

  /**
    A tile map addressed as `g[my][mx]`: row `my`, column `mx`. A zero is
    empty floor; a positive value is a wall, and the value selects its
    colour or texture.
   */
  type Grid = cells: seq<seq<int>> | IsGrid(cells) witness seq(MapHeight, _ => seq(MapWidth, _ => 0))

  /** The map built into both programs: a closed border, a hollow 3x3 block and a short pillar. */
  const GMap: Grid := [
    [1, 1, 1, 1, 1, 1, 1, 1, 1, 1],
    [1, 0, 0, 0, 0, 0, 0, 0, 0, 1],
    [1, 0, 0, 0, 0, 0, 0, 0, 0, 1],
    [1, 0, 0, 2, 2, 2, 0, 0, 0, 1],
    [1, 0, 0, 2, 0, 2, 0, 0, 0, 1],
    [1, 0, 0, 2, 2, 2, 0, 0, 0, 1],
    [1, 0, 0, 0, 0, 0, 0, 3, 0, 1],
    [1, 0, 0, 0, 0, 0, 0, 3, 0, 1],
    [1, 0, 0, 0, 0, 0, 0, 3, 0, 1],
    [1, 1, 1, 1, 1, 1, 1, 1, 1, 1]
  ]

  predicate InGrid(mx: int, my: int)
  {
    0 <= mx < MapWidth && 0 <= my < MapHeight
  }

  /** A cell inside the grid but not on its outer ring. */
  predicate Interior(mx: int, my: int)
  {
    1 <= mx < MapWidth - 1 && 1 <= my < MapHeight - 1
  }

  /** The tile of a cell, with 0 standing in for every cell outside the grid. */
  function TileAt(g: Grid, mx: int, my: int): (t: int)
    ensures !InGrid(mx, my) ==> t == 0
    ensures InGrid(mx, my) ==> t == g[my][mx]
  {
    if InGrid(mx, my) then g[my][mx] else 0
  }

  /** `is_walkable` on integer cell coordinates: inside the grid and empty. */
  function IsWalkable(g: Grid, mx: int, my: int): (b: bool)
    ensures !InGrid(mx, my) ==> !b
    ensures InGrid(mx, my) ==> (b <==> g[my][mx] == 0)
  {
    if mx < 0 || mx >= MapWidth || my < 0 || my >= MapHeight then false
    else g[my][mx] == 0
  }

  /**
    `is_walkable` on a world position: the coordinates are converted to
    cells the C way, truncating toward zero, so a coordinate just below 0
    still lands in column or row 0.
   */
  function IsWalkableAt(g: Grid, x: real, y: real): (b: bool)
    ensures b ==> -1.0 < x < MapWidth as real && -1.0 < y < MapHeight as real
  {
    IsWalkable(g, TruncToInt(x), TruncToInt(y))
  }

  /** Every cell of the outer ring is a wall. */
  predicate WalledBorder(g: Grid)
  {
    && (forall mx :: 0 <= mx < MapWidth ==> g[0][mx] > 0 && g[MapHeight - 1][mx] > 0)
    && (forall my :: 0 <= my < MapHeight ==> g[my][0] > 0 && g[my][MapWidth - 1] > 0)
  }

  lemma GMapHasWalledBorder()
    ensures WalledBorder(GMap)
  {
    assert GMap[0] == [1, 1, 1, 1, 1, 1, 1, 1, 1, 1];
    assert GMap[9] == [1, 1, 1, 1, 1, 1, 1, 1, 1, 1];
    forall my | 0 <= my < MapHeight
      ensures GMap[my][0] > 0 && GMap[my][MapWidth - 1] > 0
    {
      assert GMap[my][0] == 1 && GMap[my][9] == 1;
    }
  }

  /**
    The camera's starting position (2.5, 2.5) stands on an empty interior
    cell of the built-in map, so the flat renderer's requirement on the
    scene holds for every frame the program draws.
   */
  lemma CameraStartIsWalkable()
    ensures IsWalkableAt(GMap, 2.5, 2.5)
    ensures WalledBorder(GMap) && Interior(TruncToInt(2.5), TruncToInt(2.5))
  {
    assert TruncToInt(2.5) == 2;
    assert GMap[2] == [1, 0, 0, 0, 0, 0, 0, 0, 0, 1];
    GMapHasWalledBorder();
  }

  /** On a map with a walled border every empty cell is an interior cell. */
  lemma WalkableCellIsInterior(g: Grid, mx: int, my: int)
    requires WalledBorder(g)
    requires IsWalkable(g, mx, my)
    ensures Interior(mx, my)
  {
    assert g[my][0] > 0 && g[my][MapWidth - 1] > 0;
    assert g[0][mx] > 0 && g[MapHeight - 1][mx] > 0;
  }

  /**
    The collision rule of the forward and backward moves: try the new x
    against the old y, then the new y against the (possibly updated) x,
    and keep each coordinate only if its cell is walkable.
   */
  function TryMove(g: Grid, posX: real, posY: real, newX: real, newY: real): (p: (real, real))
    ensures p.0 == posX || p.0 == newX
    ensures p.1 == posY || p.1 == newY
    ensures IsWalkableAt(g, newX, posY) ==> p.0 == newX
    ensures !IsWalkableAt(g, newX, posY) ==> p.0 == posX
    ensures IsWalkableAt(g, p.0, newY) ==> p.1 == newY
    ensures !IsWalkableAt(g, p.0, newY) ==> p.1 == posY
    ensures IsWalkableAt(g, posX, posY) ==> IsWalkableAt(g, p.0, p.1)
  {
    var x := if IsWalkableAt(g, newX, posY) then newX else posX;
    var y := if IsWalkableAt(g, x, newY) then newY else posY;
    (x, y)
  }

  /**
    A camera that starts on a walkable position of a walled map and moves
    only by TryMove always stands in an interior cell.
   */
  lemma {:induction false} MovesStayInterior(g: Grid, posX: real, posY: real, moves: seq<(real, real)>)
    requires WalledBorder(g)
    requires IsWalkableAt(g, posX, posY)
    ensures var p := Replay(g, posX, posY, moves); Interior(TruncToInt(p.0), TruncToInt(p.1))
    decreases |moves|
  {
    if moves == [] {
      WalkableCellIsInterior(g, TruncToInt(posX), TruncToInt(posY));
    } else {
      var p := TryMove(g, posX, posY, moves[0].0, moves[0].1);
      MovesStayInterior(g, p.0, p.1, moves[1..]);
    }
  }

  /** The position reached by a sequence of attempted moves, each given as its target position. */
  function Replay(g: Grid, posX: real, posY: real, moves: seq<(real, real)>): (real, real)
    decreases |moves|
  {
    if moves == [] then (posX, posY)
    else
      var p := TryMove(g, posX, posY, moves[0].0, moves[0].1);
      Replay(g, p.0, p.1, moves[1..])
  }
}
