/**
 * The bomb: it falls like the other species, and when it rests next to acid
 * it clears a square of side 2*radius anchored up and left of it.
 */
module Explosion {
  import opened Substances
  import opened Pictures
  import opened Motion

  /** The bomb's default explosion radius. */
  const RADIUS: nat := 5

  function Max(a: int, b: int): int
  {
    if a >= b then a else b
  }

  function Dist(d: int): nat
  {
    if d < 0 then -d else d
  }

  predicate AcidAt(g: Grid, y: int, x: int)
    requires Rect(g)
  {
    InBounds(g, y, x) && g[y][x] == Acid
  }

  /** next_to_acid: one of the neighbours above, right, below, left holds Acid. */
  predicate NextToAcid(g: Grid, y: int, x: int)
    requires Rect(g)
  {
    AcidAt(g, y - 1, x) || AcidAt(g, y, x + 1) || AcidAt(g, y + 1, x) || AcidAt(g, y, x - 1)
  }

  /** The trigger holds exactly when some in-bounds 4-neighbour holds Acid. */
  lemma NextToAcidExists(g: Grid, y: int, x: int)
    requires Rect(g)
    ensures NextToAcid(g, y, x) <==>
              exists ny, nx :: Dist(ny - y) + Dist(nx - x) == 1 && InBounds(g, ny, nx) && g[ny][nx] == Acid
  {
    if exists ny, nx :: Dist(ny - y) + Dist(nx - x) == 1 && InBounds(g, ny, nx) && g[ny][nx] == Acid {
      var ny, nx :| Dist(ny - y) + Dist(nx - x) == 1 && InBounds(g, ny, nx) && g[ny][nx] == Acid;
      assert AcidAt(g, ny, nx);
    }
    if AcidAt(g, y - 1, x) {
      assert Dist(y - 1 - y) + Dist(x - x) == 1;
    } else if AcidAt(g, y, x + 1) {
      assert Dist(y - y) + Dist(x + 1 - x) == 1;
    } else if AcidAt(g, y + 1, x) {
      assert Dist(y + 1 - y) + Dist(x - x) == 1;
    } else if AcidAt(g, y, x - 1) {
      assert Dist(y - y) + Dist(x - 1 - x) == 1;
    }
  }

  /** destroy: every cell in the square [top, top+side) x [left, left+side) becomes Blank. */
  function Destroyed(g: Grid, top: int, left: int, side: int): (r: Grid)
    requires Rect(g)
    ensures SameDims(g, r)
  {
    seq(|g|, i requires 0 <= i < |g| =>
      seq(|g[i]|, j requires 0 <= j < |g[i]| =>
        if top <= i < top + side && left <= j < left + side then Blank else g[i][j]))
  }

  /** check_bomb: fall; if blocked in place above the last row and next to acid, explode. */
  function BombStep(g: Grid, y: int, x: int, radius: nat): (r: Grid)
    requires Rect(g) && InBounds(g, y, x)
    ensures SameDims(g, r)
  {
    var f := Fall(g, y, x, Bomb);
    if f.row == |g| - 1 then Set(f.grid, f.row, x, Blank)
    else if y != f.row then f.grid
    else if NextToAcid(f.grid, y, x) then Destroyed(f.grid, Max(0, y - radius), Max(0, x - radius), 2 * radius)
    else f.grid
  }

  // ---------------------------------------------------------------------
  // The explosion region
  // ---------------------------------------------------------------------

  /**
   * The explosion clears exactly the in-bounds cells of its square and
   * leaves every other cell as it was; the square is cut off at the bottom
   * and right edges. So it only ever blanks cells.
   */
  lemma DestroyedRegion(g: Grid, top: int, left: int, side: int)
    requires Rect(g)
    ensures forall i, j :: InBounds(g, i, j) && top <= i < top + side && left <= j < left + side ==>
              Destroyed(g, top, left, side)[i][j] == Blank
    ensures forall i, j :: InBounds(g, i, j) && !(top <= i < top + side && left <= j < left + side) ==>
              Destroyed(g, top, left, side)[i][j] == g[i][j]
    ensures OnlyBlanked(g, Destroyed(g, top, left, side))
  {
  }

  /**
   * With a radius of at least 2 the explosion around (y, x) clears the bomb's
   * own cell and every in-bounds 4-neighbour, so the triggering acid too.
   */
  lemma ExplosionClearsTrigger(g: Grid, y: int, x: int, radius: nat)
    requires Rect(g) && InBounds(g, y, x) && radius >= 2
    ensures var r := Destroyed(g, Max(0, y - radius), Max(0, x - radius), 2 * radius);
            forall i, j :: InBounds(g, i, j) && Dist(i - y) + Dist(j - x) <= 1 ==> r[i][j] == Blank
  {
  }

  // ---------------------------------------------------------------------
  // The bomb rule
  // ---------------------------------------------------------------------

  /**
   * A bomb on the last row is deleted and never explodes; a bomb that can
   * fall only falls (and is deleted if that lands it on the last row); a
   * bomb blocked above the last row explodes exactly when it is next to acid,
   * and otherwise nothing changes.
   */
  lemma BombOutcome(g: Grid, y: int, x: int, radius: nat)
    requires Rect(g) && InBounds(g, y, x)
    ensures y == |g| - 1 ==> BombStep(g, y, x, radius) == Set(g, y, x, Blank)
    ensures y < |g| - 1 && g[y + 1][x] == Blank ==>
              var r := BombStep(g, y, x, radius);
              && r[y][x] == Blank
              && r[y + 1][x] == (if y + 1 == |g| - 1 then Blank else Bomb)
              && forall i, j :: InBounds(g, i, j) && !(j == x && (i == y || i == y + 1)) ==> r[i][j] == g[i][j]
    ensures y < |g| - 1 && g[y + 1][x] != Blank ==>
              BombStep(g, y, x, radius)
                == if NextToAcid(g, y, x) then Destroyed(g, Max(0, y - radius), Max(0, x - radius), 2 * radius) else g
  {
    FallOutcome(g, y, x, Bomb);
  }

  lemma BombConserves(g: Grid, y: int, x: int, radius: nat)
    requires Rect(g) && InBounds(g, y, x) && g[y][x] == Bomb
    ensures Conserves(g, BombStep(g, y, x, radius)) && MetalKept(g, BombStep(g, y, x, radius))
  {
    var f := Fall(g, y, x, Bomb);
    var r := BombStep(g, y, x, radius);
    FallPreserves(g, y, x, Bomb);
    PreservesConserves(g, f.grid);
    if f.row == |g| - 1 {
      BlankConserves(f.grid, f.row, x);
      ConservesTrans(g, f.grid, r);
      MetalKeptTrans(g, f.grid, r);
    } else if y == f.row && NextToAcid(f.grid, y, x) {
      DestroyedRegion(f.grid, Max(0, y - radius), Max(0, x - radius), 2 * radius);
      BlankingConserves(f.grid, r);
      ConservesTrans(g, f.grid, r);
      MetalKeptTrans(g, f.grid, r);
    }
  }

  // ---------------------------------------------------------------------
  // The bomb on the picture array
  // ---------------------------------------------------------------------

  /** next_to_acid on the picture: scans the four offsets and stops at the first acid. */
  method ScanNextToAcid(a: array2<Kind>, y: int, x: int) returns (found: bool)
    ensures found == NextToAcid(Snapshot(a), y, x)
  {
    ghost var g := Snapshot(a);
    var xShift := [0, 1, 0, -1];
    var yShift := [-1, 0, 1, 0];
    for i := 0 to 4
      invariant forall n :: 0 <= n < i ==> !AcidAt(g, y + yShift[n], x + xShift[n])
    {
      var xCoordinate := x + xShift[i];
      var yCoordinate := y + yShift[i];
      if xCoordinate < 0 || xCoordinate > a.Length1 - 1 {
        continue;
      }
      if yCoordinate < 0 || yCoordinate > a.Length0 - 1 {
        continue;
      }
      if a[yCoordinate, xCoordinate] == Acid {
        return true;
      }
    }
    assert !AcidAt(g, y + yShift[0], x + xShift[0]) && !AcidAt(g, y + yShift[1], x + xShift[1]);
    assert !AcidAt(g, y + yShift[2], x + xShift[2]) && !AcidAt(g, y + yShift[3], x + xShift[3]);
    return false;
  }

  /**
   * The anchor loop of check_bomb: radius unit steps up and left, each
   * refused once it would leave the grid.
   */
  method FindAnchor(y: int, x: int, radius: nat) returns (upperLeftY: int, upperLeftX: int)
    ensures upperLeftY == if y < 0 then y else Max(0, y - radius)
    ensures upperLeftX == if x < 0 then x else Max(0, x - radius)
  {
    upperLeftX := x;
    upperLeftY := y;
    for i := 0 to radius
      invariant upperLeftY == if y < 0 then y else Max(0, y - i)
      invariant upperLeftX == if x < 0 then x else Max(0, x - i)
    {
      if upperLeftX - 1 >= 0 {
        upperLeftX := upperLeftX - 1;
      }
      if upperLeftY - 1 >= 0 {
        upperLeftY := upperLeftY - 1;
      }
    }
  }

  /** destroy on the picture: clears the square, skipping cells past the bottom or right edge. */
  method Destroy(a: array2<Kind>, upperLeftX: int, upperLeftY: int, radius: nat)
    requires 0 <= upperLeftX && 0 <= upperLeftY
    modifies a
    ensures Snapshot(a) == Destroyed(old(Snapshot(a)), upperLeftY, upperLeftX, 2 * radius)
  {
    ghost var g := Snapshot(a);
    for i := 0 to 2 * radius
      invariant forall p, q :: 0 <= p < a.Length0 && 0 <= q < a.Length1 ==>
                  a[p, q] == if upperLeftY <= p < upperLeftY + i && upperLeftX <= q < upperLeftX + 2 * radius
                             then Blank else g[p][q]
    {
      for j := 0 to 2 * radius
        invariant forall p, q :: 0 <= p < a.Length0 && 0 <= q < a.Length1 ==>
                    a[p, q] == if (upperLeftY <= p < upperLeftY + i && upperLeftX <= q < upperLeftX + 2 * radius)
                                  || (p == upperLeftY + i && upperLeftX <= q < upperLeftX + j)
                               then Blank else g[p][q]
      {
        var xCoordinate := upperLeftX + j;
        var yCoordinate := upperLeftY + i;
        if xCoordinate > a.Length1 - 1 {
          continue;
        }
        if yCoordinate > a.Length0 - 1 {
          continue;
        }
        a[yCoordinate, xCoordinate] := Blank;
      }
    }
    SnapshotEq(a, Destroyed(g, upperLeftY, upperLeftX, 2 * radius));
  }

  method CheckBomb(a: array2<Kind>, y: int, x: int, radius: nat)
    requires 0 <= y < a.Length0 && 0 <= x < a.Length1
    modifies a
    ensures Snapshot(a) == BombStep(old(Snapshot(a)), y, x, radius)
  {
    var yUpdate := VerticalMotion(a, y, x, Bomb);
    if yUpdate == a.Length0 - 1 {
      SetCell(a, yUpdate, x, Blank);
      return;
    }
    if y != yUpdate {
      return;
    }
    var near := ScanNextToAcid(a, y, x);
    if near {
      var upperLeftY, upperLeftX := FindAnchor(y, x, radius);
      Destroy(a, upperLeftX, upperLeftY, radius);
    }
  }
}
