/**
 * The two movement primitives shared by the falling species: the one-row
 * fall (`vertical_motion`) and the one-column drift (`sideway_motion`).
 */
module Motion {
  import opened Substances
  import opened Pictures

  /** The picture after a fall attempt, and the row the particle now occupies. */
  datatype Fallen = Fallen(grid: Grid, row: int)

  /** Sand and acid sink through water; the other fallers do not. */
  predicate SinksInWater(k: Kind)
  {
    k == Sand || k == Acid
  }

  /** vertical_motion: a particle of kind k at (y, x) tries to fall one row. */
  function Fall(g: Grid, y: int, x: int, k: Kind): (r: Fallen)
    requires Rect(g) && InBounds(g, y, x)
    ensures SameDims(g, r.grid)
    ensures y <= r.row <= y + 1 && r.row < |g|
  {
    if y == |g| - 1 then Fallen(g, y)
    else if g[y + 1][x] == Blank then Fallen(Set(Set(g, y, x, Blank), y + 1, x, k), y + 1)
    else if SinksInWater(k) && g[y + 1][x] == Water then Fallen(Set(Set(g, y, x, Water), y + 1, x, k), y + 1)
    else Fallen(g, y)
  }

  /** The column offset a side draw picks: 0 is left, anything else right. */
  function SideOffset(side: int): (dx: int)
    ensures dx == -1 || dx == 1
  {
    if side == 0 then -1 else 1
  }

  /** sideway_motion: a particle of kind k at (y, x) drifts one column. */
  function Drift(g: Grid, y: int, x: int, k: Kind, side: int): (r: Grid)
    requires Rect(g) && InBounds(g, y, x)
    ensures SameDims(g, r)
  {
    var dx := SideOffset(side);
    if x + dx >= 0 && x + dx <= Width(g) - 1 then
      if g[y][x + dx] != Blank then g
      else Set(Set(g, y, x, Blank), y, x + dx, k)
    else Set(g, y, x, Blank)
  }

  // ---------------------------------------------------------------------
  // What the primitives do, cell by cell
  // ---------------------------------------------------------------------

  /**
   * The four outcomes of a fall attempt, and its frame: only the particle's
   * cell and the one below can change.
   */
  lemma FallOutcome(g: Grid, y: int, x: int, k: Kind)
    requires Rect(g) && InBounds(g, y, x)
    ensures y == |g| - 1 ==> Fall(g, y, x, k) == Fallen(g, y)
    ensures y < |g| - 1 && g[y + 1][x] == Blank ==>
              var f := Fall(g, y, x, k);
              f.row == y + 1 && f.grid[y + 1][x] == k && f.grid[y][x] == Blank
    ensures y < |g| - 1 && SinksInWater(k) && g[y + 1][x] == Water ==>
              var f := Fall(g, y, x, k);
              f.row == y + 1 && f.grid[y + 1][x] == k && f.grid[y][x] == Water
    ensures y < |g| - 1 && g[y + 1][x] != Blank && !(SinksInWater(k) && g[y + 1][x] == Water) ==>
              Fall(g, y, x, k) == Fallen(g, y)
    ensures forall i, j :: InBounds(g, i, j) && !(j == x && (i == y || i == y + 1)) ==>
              Fall(g, y, x, k).grid[i][j] == g[i][j]
  {
  }

  /** The fall moved the particle exactly when the grid changed row. */
  lemma FallStaysIffBlocked(g: Grid, y: int, x: int, k: Kind)
    requires Rect(g) && InBounds(g, y, x)
    ensures Fall(g, y, x, k).row == y <==>
              y == |g| - 1 || (g[y + 1][x] != Blank && !(SinksInWater(k) && g[y + 1][x] == Water))
    ensures Fall(g, y, x, k).row == y ==> Fall(g, y, x, k).grid == g
  {
  }

  /** A fall only exchanges the particle with the Blank or Water below it. */
  lemma FallPreserves(g: Grid, y: int, x: int, k: Kind)
    requires Rect(g) && InBounds(g, y, x) && g[y][x] == k && k != Metal
    ensures Preserves(g, Fall(g, y, x, k).grid) && MetalKept(g, Fall(g, y, x, k).grid)
  {
    if y < |g| - 1 && (g[y + 1][x] == Blank || (SinksInWater(k) && g[y + 1][x] == Water)) {
      SwapPreserves(g, y, x, y + 1, x);
    } else {
      ConservesRefl(g);
    }
  }

  /** The three outcomes of a drift, and its frame: only row y, columns x and x+dx. */
  lemma DriftOutcome(g: Grid, y: int, x: int, k: Kind, side: int)
    requires Rect(g) && InBounds(g, y, x)
    ensures var tx := x + SideOffset(side);
            !(0 <= tx < Width(g)) ==> Drift(g, y, x, k, side) == Set(g, y, x, Blank)
    ensures var tx := x + SideOffset(side);
            0 <= tx < Width(g) && g[y][tx] != Blank ==> Drift(g, y, x, k, side) == g
    ensures var tx := x + SideOffset(side);
            0 <= tx < Width(g) && g[y][tx] == Blank ==>
              Drift(g, y, x, k, side)[y][tx] == k && Drift(g, y, x, k, side)[y][x] == Blank
    ensures var tx := x + SideOffset(side);
            forall i, j :: InBounds(g, i, j) && !(i == y && (j == x || j == tx)) ==>
              Drift(g, y, x, k, side)[i][j] == g[i][j]
  {
  }

  /**
   * A drift moves the particle into a Blank cell or deletes it. Only the
   * deletion at the edge changes a count; a drift inside the row keeps them all.
   */
  lemma DriftConserves(g: Grid, y: int, x: int, k: Kind, side: int)
    requires Rect(g) && InBounds(g, y, x) && g[y][x] == k && k != Metal
    ensures Conserves(g, Drift(g, y, x, k, side)) && MetalKept(g, Drift(g, y, x, k, side))
    ensures 0 <= x + SideOffset(side) < Width(g) ==> Preserves(g, Drift(g, y, x, k, side))
  {
    var tx := x + SideOffset(side);
    var r := Drift(g, y, x, k, side);
    if 0 <= tx < Width(g) {
      if g[y][tx] != Blank {
        assert r == g;
        ConservesRefl(g);
      } else {
        assert r == Set(Set(g, y, x, g[y][tx]), y, tx, g[y][x]);
        SwapPreserves(g, y, x, y, tx);
        PreservesConserves(g, r);
      }
    } else {
      assert r == Set(g, y, x, Blank);
      BlankConserves(g, y, x);
    }
  }

  // ---------------------------------------------------------------------
  // The primitives on the picture array
  // ---------------------------------------------------------------------

  method VerticalMotion(a: array2<Kind>, y: int, x: int, particle: Kind) returns (yUpdate: int)
    requires 0 <= y < a.Length0 && 0 <= x < a.Length1
    modifies a
    ensures Fall(old(Snapshot(a)), y, x, particle) == Fallen(Snapshot(a), yUpdate)
  {
    yUpdate := y;
    if y == a.Length0 - 1 {
      return;
    }
    if a[y + 1, x] == Blank {
      SetCell(a, y, x, Blank);
      SetCell(a, y + 1, x, particle);
      yUpdate := y + 1;
    } else if (particle == Sand || particle == Acid) && a[y + 1, x] == Water {
      SetCell(a, y, x, Water);
      SetCell(a, y + 1, x, particle);
      yUpdate := y + 1;
    }
  }

  method SidewayMotion(a: array2<Kind>, y: int, x: int, particle: Kind, direction: int)
    requires 0 <= y < a.Length0 && 0 <= x < a.Length1
    requires 0 <= direction < 2
    modifies a
    ensures Snapshot(a) == Drift(old(Snapshot(a)), y, x, particle, direction)
  {
    var dx := if direction == 0 then -1 else 1;
    if x + dx >= 0 && x + dx <= a.Length1 - 1 {
      if a[y, x + dx] != Blank {
        return;
      }
      SetCell(a, y, x, Blank);
      SetCell(a, y, x + dx, particle);
    } else {
      SetCell(a, y, x, Blank);
    }
  }
}
