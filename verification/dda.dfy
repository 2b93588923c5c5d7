/**
  The grid walk (digital differential analyser) that finds the first wall a
  column's ray meets.

  The walk steps the integer cell `(mapX, mapY)` one grid line at a time.
  Which axis it advances is decided by comparing the two accumulated side
  distances; those are floating-point values in the program, so here the
  decision is an arbitrary function of the walk state, and every guarantee
  below holds whatever that function answers. `NearerAxis` is the
  program's own choice.
 */
module Dda {
  import opened CInt
  import opened Grid

  /** Which kind of grid line the last step crossed: a vertical one (the program's side 0) or a horizontal one (side 1). */
  datatype Side = XSide | YSide

  /** What is fixed before the walk starts: the step direction and the side-distance increment on each axis. */
  datatype Ray = Ray(stepX: int, stepY: int, deltaDistX: real, deltaDistY: real)
  {
    predicate Valid()
    {
      (stepX == 1 || stepX == -1) && (stepY == 1 || stepY == -1)
    }
  }

  /** The state the loop carries: the current cell, the two side distances and the side of the last step. */
  datatype Walk = Walk(mapX: int, mapY: int, sideDistX: real, sideDistY: real, side: Side)

  /** The result of a walk: the cell where it stopped and how many iterations it took. */
  datatype Hit = Hit(cell: Walk, steps: nat)

  /** The step on one axis, chosen from the sign of the ray component: -1 for a negative component, +1 otherwise (zero included). */
  function StepSign(rayDir: real): (s: int)
    ensures s == 1 || s == -1
    ensures s < 0 <==> rayDir < 0.0
  {
    if rayDir < 0.0 then -1 else 1
  }

  /** The program's choice of axis: advance along x exactly when its side distance is strictly smaller. */
  function NearerAxis(w: Walk): bool
  {
    w.sideDistX < w.sideDistY
  }

  /** One iteration of the loop body, advancing along x when `alongX` holds and along y otherwise. */
  function Advance(ray: Ray, w: Walk, alongX: bool): (n: Walk)
    requires ray.Valid()
    ensures Abs(n.mapX - w.mapX) + Abs(n.mapY - w.mapY) == 1
    ensures n.mapX == w.mapX || n.mapX == w.mapX + ray.stepX
    ensures n.mapY == w.mapY || n.mapY == w.mapY + ray.stepY
    ensures n.side == XSide <==> n.mapX != w.mapX
    ensures n.side == XSide <==> alongX
  {
    if alongX then
      Walk(w.mapX + ray.stepX, w.mapY, w.sideDistX + ray.deltaDistX, w.sideDistY, XSide)
    else
      Walk(w.mapX, w.mapY + ray.stepY, w.sideDistX, w.sideDistY + ray.deltaDistY, YSide)
  }

  /**
    The loop's exit test: the cell is outside the grid or holds a wall.
    On a map without negative tiles these are exactly the cells the
    camera's collision test refuses.
   */
  predicate Stops(g: Grid, w: Walk)
    ensures !InGrid(w.mapX, w.mapY) ==> Stops(g, w)
    ensures TileAt(g, w.mapX, w.mapY) >= 0 ==> (Stops(g, w) <==> !IsWalkable(g, w.mapX, w.mapY))
  {
    !InGrid(w.mapX, w.mapY) || g[w.mapY][w.mapX] > 0
  }

  /** How many steps along one axis, in the given direction, take a coordinate out of `[0, size)`. */
  function ExitDistance(step: int, m: int, size: int): int
  {
    if step > 0 then size - m else m + 1
  }

  /** Steps left before the walk must leave the grid: the sum of the two exit distances. */
  function Budget(ray: Ray, w: Walk): int
  {
    ExitDistance(ray.stepX, w.mapX, MapWidth) + ExitDistance(ray.stepY, w.mapY, MapHeight)
  }

  /** Every step uses up exactly one unit of the budget, whichever axis it takes. */
  lemma AdvanceSpendsBudget(ray: Ray, w: Walk, alongX: bool)
    requires ray.Valid()
    ensures Budget(ray, Advance(ray, w, alongX)) == Budget(ray, w) - 1
  {
  }

  /** The termination measure: the budget inside the grid, and one more than any in-grid budget outside it. */
  function Measure(ray: Ray, w: Walk): nat
  {
    if InGrid(w.mapX, w.mapY) && ray.Valid() then Budget(ray, w) else MapWidth + MapHeight + 1
  }

  /** The walk moves along the ray's step direction only (or stays put) on each axis. */
  predicate Toward(step: int, from: int, to: int)
  {
    if step > 0 then from <= to else to <= from
  }

  /** The cell the walk reaches after `k` iterations, each taking the axis `choose` picks in the state it starts from. */
  function Walked(ray: Ray, w: Walk, choose: Walk -> bool, k: nat): Walk
    requires ray.Valid()
    decreases k
  {
    if k == 0 then w else Walked(ray, Advance(ray, w, choose(w)), choose, k - 1)
  }

  /** A walk of `k` iterations is one iteration followed by a walk of `k - 1` from where it landed. */
  lemma WalkedShift(ray: Ray, w: Walk, choose: Walk -> bool)
    requires ray.Valid()
    ensures forall k: nat :: 1 <= k ==> Walked(ray, w, choose, k) == Walked(ray, Advance(ray, w, choose(w)), choose, k - 1)
  {
  }

  /**
    The loop of the program: at least one step is always taken (the loop
    tests only after stepping), then it keeps stepping until `Stops`. The
    hit is the first cell of the `choose`-driven walk that passes the exit
    test.
   */
  function Trace(g: Grid, ray: Ray, w: Walk, choose: Walk -> bool): (h: Hit)
    requires ray.Valid()
    ensures Stops(g, h.cell)
    ensures 1 <= h.steps <= MapWidth + MapHeight
    ensures InGrid(w.mapX, w.mapY) ==> h.steps < Budget(ray, w)
    ensures Toward(ray.stepX, w.mapX, h.cell.mapX) && Toward(ray.stepY, w.mapY, h.cell.mapY)
    ensures Abs(h.cell.mapX - w.mapX) + Abs(h.cell.mapY - w.mapY) == h.steps
    ensures h.cell == Walked(ray, w, choose, h.steps)
    ensures forall k :: 1 <= k < h.steps ==> !Stops(g, Walked(ray, w, choose, k))
    decreases Measure(ray, w)
  {
    var n := Advance(ray, w, choose(w));
    AdvanceSpendsBudget(ray, w, choose(w));
    if Stops(g, n) then
      Hit(n, 1)
    else
      var h := Trace(g, ray, n, choose);
      WalkedShift(ray, w, choose);
      Hit(h.cell, h.steps + 1)
  }

  /**
    On a map whose border is all wall, a walk that starts in an interior
    cell stops on a wall cell inside the grid: the out-of-grid exit is
    never taken, so the tile found is at least 1.
   */
  lemma {:induction false} InteriorWalkHitsWall(g: Grid, ray: Ray, w: Walk, choose: Walk -> bool)
    requires WalledBorder(g)
    requires ray.Valid()
    requires Interior(w.mapX, w.mapY)
    ensures var c := Trace(g, ray, w, choose).cell; InGrid(c.mapX, c.mapY) && TileAt(g, c.mapX, c.mapY) >= 1
    decreases Measure(ray, w)
  {
    var n := Advance(ray, w, choose(w));
    assert InGrid(n.mapX, n.mapY);
    if !Stops(g, n) {
      assert g[n.mapY][0] > 0 && g[n.mapY][MapWidth - 1] > 0;
      assert g[0][n.mapX] > 0 && g[MapHeight - 1][n.mapX] > 0;
      AdvanceSpendsBudget(ray, w, choose(w));
      InteriorWalkHitsWall(g, ray, n, choose);
    }
  }

  /**
    The walk stops at the first wall even with empty cells beyond it: from
    cell (2, 3) heading +x, the first step lands on the hollow block's
    west face at (3, 3).
   */
  lemma EastRayStopsOnBlock()
    ensures var h := Trace(GMap, Ray(1, 1, 1.0, 1e30), Walk(2, 3, 0.5, 5e29, XSide), NearerAxis);
      h.cell.mapX == 3 && h.cell.mapY == 3 && h.steps == 1 && TileAt(GMap, 3, 3) == 2
  {
    assert GMap[3] == [1, 0, 0, 2, 2, 2, 0, 0, 0, 1];
  }

  /**
    The centre column of the starting view on the built-in map: camera at
    (2.5, 2.5) looking along +x, so the ray is (1, 0). Its y component is
    zero, so y steps +1 with the 1e30 sentinel as increment; x starts 0.5
    from the next line and advances by 1. The ray runs along the empty row
    2 and stops on the east border at cell (9, 2), a vertical-line hit,
    after 7 iterations.
   */
  lemma CentreRayHitsEastBorder()
    ensures var h := Trace(GMap, Ray(1, 1, 1.0, 1e30), Walk(2, 2, 0.5, 5e29, XSide), NearerAxis);
      h.cell.mapX == 9 && h.cell.mapY == 2 && h.cell.side == XSide && h.steps == 7
  {
    var ray := Ray(1, 1, 1.0, 1e30);
    assert GMap[2] == [1, 0, 0, 0, 0, 0, 0, 0, 0, 1];
    var w8 := Walk(8, 2, 6.5, 5e29, XSide);
    assert Trace(GMap, ray, w8, NearerAxis) == Hit(Walk(9, 2, 7.5, 5e29, XSide), 1);
    var w7 := Walk(7, 2, 5.5, 5e29, XSide);
    assert Trace(GMap, ray, w7, NearerAxis) == Hit(Walk(9, 2, 7.5, 5e29, XSide), 2);
    var w6 := Walk(6, 2, 4.5, 5e29, XSide);
    assert Trace(GMap, ray, w6, NearerAxis) == Hit(Walk(9, 2, 7.5, 5e29, XSide), 3);
    var w5 := Walk(5, 2, 3.5, 5e29, XSide);
    assert Trace(GMap, ray, w5, NearerAxis) == Hit(Walk(9, 2, 7.5, 5e29, XSide), 4);
    var w4 := Walk(4, 2, 2.5, 5e29, XSide);
    assert Trace(GMap, ray, w4, NearerAxis) == Hit(Walk(9, 2, 7.5, 5e29, XSide), 5);
    var w3 := Walk(3, 2, 1.5, 5e29, XSide);
    assert Trace(GMap, ray, w3, NearerAxis) == Hit(Walk(9, 2, 7.5, 5e29, XSide), 6);
  }
}
