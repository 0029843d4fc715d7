/**
 * The rules of the moving species other than the bomb: sand, water, acid
 * and gas. Each is a function on grid values, followed by lemmas on what it
 * does and by the method that performs it on the picture array.
 */
module Species {
  import opened Substances
  import opened Pictures
  import opened Motion

  /**
   * The offset (dy, dx) one of the four cardinal draws picks:
   * 0 left, 1 right, 2 up, anything else down.
   */
  function Cardinal(direction: int): (d: (int, int))
    ensures (d.0 == 0 && (d.1 == -1 || d.1 == 1)) || (d.1 == 0 && (d.0 == -1 || d.0 == 1))
  {
    if direction == 0 then (0, -1)
    else if direction == 1 then (0, 1)
    else if direction == 2 then (-1, 0)
    else (1, 0)
  }

  /** The particle of a fall that ended on the last row is deleted there. */
  function Land(f: Fallen, x: int): (r: Grid)
    requires Rect(f.grid) && InBounds(f.grid, f.row, x)
    ensures SameDims(f.grid, r)
  {
    if f.row == |f.grid| - 1 then Set(f.grid, f.row, x, Blank) else f.grid
  }

  /** move_sand. */
  function SandStep(g: Grid, y: int, x: int): (r: Grid)
    requires Rect(g) && InBounds(g, y, x)
    ensures SameDims(g, r)
  {
    Land(Fall(g, y, x, Sand), x)
  }

  /** move_water: fall; if blocked in place above the last row, drift. */
  function WaterStep(g: Grid, y: int, x: int, side: int): (r: Grid)
    requires Rect(g) && InBounds(g, y, x)
    ensures SameDims(g, r)
  {
    var f := Fall(g, y, x, Water);
    if f.row == |g| - 1 then Set(f.grid, f.row, x, Blank)
    else if y != f.row then f.grid
    else Drift(f.grid, y, x, Water, side)
  }

  /**
   * move_acid: fall; if blocked in place above the last row, react with the
   * neighbourhood according to the choice draw.
   */
  function AcidStep(g: Grid, y: int, x: int, choice: int, side: int, direction: int): (r: Grid)
    requires Rect(g) && InBounds(g, y, x)
    ensures SameDims(g, r)
  {
    var f := Fall(g, y, x, Acid);
    if f.row == |g| - 1 then Set(f.grid, f.row, x, Blank)
    else if y != f.row then f.grid
    else AcidReact(f.grid, y, x, choice, side, direction)
  }

  /**
   * What blocked acid does: a choice draw below 80 drifts like water, one in
   * [80, 95) tries a cardinal exchange with water, and one of 95 or more
   * dissolves metal or sand below.
   */
  function AcidReact(g: Grid, y: int, x: int, choice: int, side: int, direction: int): (r: Grid)
    requires Rect(g) && InBounds(g, y, x)
    ensures SameDims(g, r)
  {
    if choice < 80 then Drift(g, y, x, Acid, side)
    else if choice < 95 then AcidExchange(g, y, x, direction)
    else Dissolve(g, y, x)
  }

  /** The [80, 95) branch: the exchange toward the cardinal neighbour the draw picks. */
  function AcidExchange(g: Grid, y: int, x: int, direction: int): (r: Grid)
    requires Rect(g) && InBounds(g, y, x)
    ensures SameDims(g, r)
  {
    var d := Cardinal(direction);
    ExchangeToward(g, y, x, d.0, d.1)
  }

  /** Toward (y+dy, x+dx): off the grid the acid vanishes; into Water it exchanges. */
  function ExchangeToward(g: Grid, y: int, x: int, dy: int, dx: int): (r: Grid)
    requires Rect(g) && InBounds(g, y, x)
    ensures SameDims(g, r)
  {
    if x + dx < 0 || x + dx > Width(g) - 1 then Set(g, y, x, Blank)
    else if y + dy < 0 || y + dy > |g| - 1 then Set(g, y, x, Blank)
    else if g[y + dy][x + dx] == Water then Set(Set(g, y, x, Water), y + dy, x + dx, Acid)
    else g
  }

  /** The [95, 100) branch: metal or sand directly below is dissolved. */
  function Dissolve(g: Grid, y: int, x: int): (r: Grid)
    requires Rect(g) && InBounds(g, y, x)
    ensures SameDims(g, r)
  {
    if y < |g| - 1 && (g[y + 1][x] == Metal || g[y + 1][x] == Sand) then Set(g, y + 1, x, Blank)
    else g
  }

  /**
   * move_gas: a choice draw below 20 aims one column sideways, any other
   * one row up; the gas leaves the grid, moves into Blank, or bubbles
   * through Water.
   */
  function GasStep(g: Grid, y: int, x: int, choice: int, side: int): (r: Grid)
    requires Rect(g) && InBounds(g, y, x)
    ensures SameDims(g, r)
  {
    var dx := if choice < 20 then SideOffset(side) else 0;
    var dy := if choice < 20 then 0 else -1;
    GasToward(g, y, x, dy, dx)
  }

  /**
   * Gas aimed at (y+dy, x+dx): off the grid it vanishes, into Blank it
   * moves, through Water it bubbles; the target is written first.
   */
  function GasToward(g: Grid, y: int, x: int, dy: int, dx: int): (r: Grid)
    requires Rect(g) && InBounds(g, y, x)
    ensures SameDims(g, r)
  {
    if x + dx < 0 || x + dx > Width(g) - 1 then Set(g, y, x, Blank)
    else if y + dy < 0 || y + dy > |g| - 1 then Set(g, y, x, Blank)
    else if g[y + dy][x + dx] == Blank then Set(Set(g, y + dy, x + dx, Gas), y, x, Blank)
    else if g[y + dy][x + dx] == Water then Set(Set(g, y + dy, x + dx, Gas), y, x, Water)
    else g
  }

  // ---------------------------------------------------------------------
  // Bottom-row deletion
  // ---------------------------------------------------------------------

  /**
   * Whenever the fall of sand, water or acid ends on the last row, that cell
   * is Blank afterwards; in particular a particle already on the last row is
   * always deleted and nothing else changes.
   */
  lemma BottomRowDeletes(g: Grid, y: int, x: int, choice: int, side: int, direction: int)
    requires Rect(g) && InBounds(g, y, x)
    ensures Fall(g, y, x, Sand).row == |g| - 1 ==> SandStep(g, y, x)[|g| - 1][x] == Blank
    ensures Fall(g, y, x, Water).row == |g| - 1 ==> WaterStep(g, y, x, side)[|g| - 1][x] == Blank
    ensures Fall(g, y, x, Acid).row == |g| - 1 ==> AcidStep(g, y, x, choice, side, direction)[|g| - 1][x] == Blank
    ensures y == |g| - 1 ==>
              && SandStep(g, y, x) == Set(g, y, x, Blank)
              && WaterStep(g, y, x, side) == Set(g, y, x, Blank)
              && AcidStep(g, y, x, choice, side, direction) == Set(g, y, x, Blank)
  {
  }

  // ---------------------------------------------------------------------
  // Water and acid once their fall is blocked
  // ---------------------------------------------------------------------

  /** Water that cannot fall and is above the last row drifts sideways. */
  lemma WaterBlockedDrifts(g: Grid, y: int, x: int, side: int)
    requires Rect(g) && InBounds(g, y, x) && y < |g| - 1 && g[y + 1][x] != Blank
    ensures WaterStep(g, y, x, side) == Drift(g, y, x, Water, side)
  {
    FallStaysIffBlocked(g, y, x, Water);
  }

  /** Water that can fall moves down one row and does nothing else. */
  lemma WaterFallsStraight(g: Grid, y: int, x: int, side: int)
    requires Rect(g) && InBounds(g, y, x) && y < |g| - 2 && g[y + 1][x] == Blank
    ensures WaterStep(g, y, x, side) == Set(Set(g, y, x, Blank), y + 1, x, Water)
  {
  }

  /**
   * Acid blocked above the last row: the three branches of its choice draw,
   * stated on the picture before the step.
   */
  lemma AcidBlockedOutcome(g: Grid, y: int, x: int, choice: int, side: int, direction: int)
    requires Rect(g) && InBounds(g, y, x) && y < |g| - 1
    requires g[y + 1][x] != Blank && g[y + 1][x] != Water
    ensures choice < 80 ==> AcidStep(g, y, x, choice, side, direction) == Drift(g, y, x, Acid, side)
    ensures 80 <= choice < 95 ==>
              var dy, dx := Cardinal(direction).0, Cardinal(direction).1;
              var r := AcidStep(g, y, x, choice, side, direction);
              && (!InBounds(g, y + dy, x + dx) ==> r == Set(g, y, x, Blank))
              && (InBounds(g, y + dy, x + dx) && g[y + dy][x + dx] == Water ==>
                    r == Set(Set(g, y, x, Water), y + dy, x + dx, Acid))
              && (InBounds(g, y + dy, x + dx) && g[y + dy][x + dx] != Water ==> r == g)
    ensures 95 <= choice ==>
              var r := AcidStep(g, y, x, choice, side, direction);
              && r[y][x] == g[y][x]
              && r == (if g[y + 1][x] == Metal || g[y + 1][x] == Sand then Set(g, y + 1, x, Blank) else g)
  {
    FallStaysIffBlocked(g, y, x, Acid);
  }

  // ---------------------------------------------------------------------
  // Gas
  // ---------------------------------------------------------------------

  /**
   * Gas: a choice draw of 20 or more aims at (y-1, x), a smaller one at
   * (y, x-1) or (y, x+1); off the grid the gas vanishes, into Blank it
   * moves, through Water it bubbles, and anything else stops it.
   */
  lemma GasOutcome(g: Grid, y: int, x: int, choice: int, side: int)
    requires Rect(g) && InBounds(g, y, x)
    ensures var ty := if choice < 20 then y else y - 1;
            var tx := if choice < 20 then x + SideOffset(side) else x;
            var r := GasStep(g, y, x, choice, side);
            && (!InBounds(g, ty, tx) ==> r == Set(g, y, x, Blank))
            && (InBounds(g, ty, tx) && g[ty][tx] == Blank ==> r[ty][tx] == Gas && r[y][x] == Blank)
            && (InBounds(g, ty, tx) && g[ty][tx] == Water ==> r[ty][tx] == Gas && r[y][x] == Water)
            && (InBounds(g, ty, tx) && g[ty][tx] != Blank && g[ty][tx] != Water ==> r == g)
            && forall i, j :: InBounds(g, i, j) && !(i == y && j == x) && !(i == ty && j == tx) ==>
                 r[i][j] == g[i][j]
  {
  }

  // ---------------------------------------------------------------------
  // Conservation
  // ---------------------------------------------------------------------

  lemma LandConserves(g: Grid, f: Fallen, x: int)
    requires Rect(g) && Preserves(g, f.grid) && MetalKept(g, f.grid) && InBounds(f.grid, f.row, x)
    ensures Conserves(g, Land(f, x)) && MetalKept(g, Land(f, x))
  {
    PreservesConserves(g, f.grid);
    if f.row == |f.grid| - 1 {
      BlankConserves(f.grid, f.row, x);
      ConservesTrans(g, f.grid, Land(f, x));
      MetalKeptTrans(g, f.grid, Land(f, x));
    }
  }

  lemma SandConserves(g: Grid, y: int, x: int)
    requires Rect(g) && InBounds(g, y, x) && g[y][x] == Sand
    ensures Conserves(g, SandStep(g, y, x)) && MetalKept(g, SandStep(g, y, x))
  {
    FallPreserves(g, y, x, Sand);
    LandConserves(g, Fall(g, y, x, Sand), x);
  }

  lemma WaterConserves(g: Grid, y: int, x: int, side: int)
    requires Rect(g) && InBounds(g, y, x) && g[y][x] == Water
    ensures Conserves(g, WaterStep(g, y, x, side)) && MetalKept(g, WaterStep(g, y, x, side))
  {
    var f := Fall(g, y, x, Water);
    FallPreserves(g, y, x, Water);
    if f.row == |g| - 1 || y != f.row {
      LandConserves(g, f, x);
    } else {
      FallStaysIffBlocked(g, y, x, Water);
      DriftConserves(g, y, x, Water, side);
    }
  }

  lemma AcidReactConserves(g: Grid, y: int, x: int, choice: int, side: int, direction: int)
    requires Rect(g) && InBounds(g, y, x) && g[y][x] == Acid
    ensures Conserves(g, AcidReact(g, y, x, choice, side, direction))
    ensures MetalKept(g, AcidReact(g, y, x, choice, side, direction))
  {
    if choice < 80 {
      DriftConserves(g, y, x, Acid, side);
    } else if choice < 95 {
      AcidExchangeConserves(g, y, x, direction);
    } else {
      DissolveConserves(g, y, x);
    }
  }

  lemma AcidExchangeConserves(g: Grid, y: int, x: int, direction: int)
    requires Rect(g) && InBounds(g, y, x) && g[y][x] == Acid
    ensures Conserves(g, AcidExchange(g, y, x, direction)) && MetalKept(g, AcidExchange(g, y, x, direction))
  {
    var d := Cardinal(direction);
    ExchangeTowardConserves(g, y, x, d.0, d.1);
  }

  lemma ExchangeTowardConserves(g: Grid, y: int, x: int, dy: int, dx: int)
    requires Rect(g) && InBounds(g, y, x) && g[y][x] == Acid && (dy != 0 || dx != 0)
    ensures Conserves(g, ExchangeToward(g, y, x, dy, dx)) && MetalKept(g, ExchangeToward(g, y, x, dy, dx))
    ensures InBounds(g, y + dy, x + dx) ==> Preserves(g, ExchangeToward(g, y, x, dy, dx))
  {
    var r := ExchangeToward(g, y, x, dy, dx);
    if !InBounds(g, y + dy, x + dx) {
      assert r == Set(g, y, x, Blank);
      BlankConserves(g, y, x);
    } else if g[y + dy][x + dx] == Water {
      assert r == Set(Set(g, y, x, g[y + dy][x + dx]), y + dy, x + dx, g[y][x]);
      SwapPreserves(g, y, x, y + dy, x + dx);
      PreservesConserves(g, r);
    } else {
      assert r == g;
      ConservesRefl(g);
    }
  }

  /** Dissolving clears one metal or sand cell. */
  lemma DissolveConserves(g: Grid, y: int, x: int)
    requires Rect(g) && InBounds(g, y, x)
    ensures Conserves(g, Dissolve(g, y, x)) && MetalKept(g, Dissolve(g, y, x))
  {
    if y < |g| - 1 && (g[y + 1][x] == Metal || g[y + 1][x] == Sand) {
      BlankConserves(g, y + 1, x);
    } else {
      ConservesRefl(g);
    }
  }

  lemma AcidConserves(g: Grid, y: int, x: int, choice: int, side: int, direction: int)
    requires Rect(g) && InBounds(g, y, x) && g[y][x] == Acid
    ensures Conserves(g, AcidStep(g, y, x, choice, side, direction))
    ensures MetalKept(g, AcidStep(g, y, x, choice, side, direction))
  {
    var f := Fall(g, y, x, Acid);
    FallPreserves(g, y, x, Acid);
    if f.row == |g| - 1 || y != f.row {
      LandConserves(g, f, x);
    } else {
      FallStaysIffBlocked(g, y, x, Acid);
      AcidReactConserves(g, y, x, choice, side, direction);
    }
  }

  lemma GasConserves(g: Grid, y: int, x: int, choice: int, side: int)
    requires Rect(g) && InBounds(g, y, x) && g[y][x] == Gas
    ensures Conserves(g, GasStep(g, y, x, choice, side)) && MetalKept(g, GasStep(g, y, x, choice, side))
  {
    var dx := if choice < 20 then SideOffset(side) else 0;
    var dy := if choice < 20 then 0 else -1;
    GasTowardConserves(g, y, x, dy, dx);
  }

  lemma GasTowardConserves(g: Grid, y: int, x: int, dy: int, dx: int)
    requires Rect(g) && InBounds(g, y, x) && g[y][x] == Gas && (dy != 0 || dx != 0)
    ensures Conserves(g, GasToward(g, y, x, dy, dx)) && MetalKept(g, GasToward(g, y, x, dy, dx))
    ensures InBounds(g, y + dy, x + dx) ==> Preserves(g, GasToward(g, y, x, dy, dx))
  {
    var ty, tx := y + dy, x + dx;
    var r := GasToward(g, y, x, dy, dx);
    if !InBounds(g, ty, tx) {
      BlankConserves(g, y, x);
    } else if g[ty][tx] == Blank || g[ty][tx] == Water {
      assert r == Set(Set(g, ty, tx, g[y][x]), y, x, g[ty][tx]);
      SwapPreserves(g, ty, tx, y, x);
      PreservesConserves(g, r);
    } else {
      ConservesRefl(g);
    }
  }

  // ---------------------------------------------------------------------
  // The rules on the picture array
  // ---------------------------------------------------------------------

  method MoveSand(a: array2<Kind>, y: int, x: int)
    requires 0 <= y < a.Length0 && 0 <= x < a.Length1
    modifies a
    ensures Snapshot(a) == SandStep(old(Snapshot(a)), y, x)
  {
    var yUpdate := VerticalMotion(a, y, x, Sand);
    if yUpdate == a.Length0 - 1 {
      SetCell(a, yUpdate, x, Blank);
    }
  }

  method MoveWater(a: array2<Kind>, y: int, x: int, direction: int)
    requires 0 <= y < a.Length0 && 0 <= x < a.Length1
    requires 0 <= direction < 2
    modifies a
    ensures Snapshot(a) == WaterStep(old(Snapshot(a)), y, x, direction)
  {
    var yUpdate := VerticalMotion(a, y, x, Water);
    if yUpdate == a.Length0 - 1 {
      SetCell(a, yUpdate, x, Blank);
      return;
    }
    if y != yUpdate {
      return;
    }
    SidewayMotion(a, y, x, Water, direction);
  }

  method MoveAcid(a: array2<Kind>, y: int, x: int, choice: int, side: int, direction: int)
    requires 0 <= y < a.Length0 && 0 <= x < a.Length1
    requires 0 <= choice < 100 && 0 <= side < 2 && 0 <= direction < 4
    modifies a
    ensures Snapshot(a) == AcidStep(old(Snapshot(a)), y, x, choice, side, direction)
  {
    var yUpdate := VerticalMotion(a, y, x, Acid);
    if yUpdate == a.Length0 - 1 {
      SetCell(a, yUpdate, x, Blank);
      return;
    }
    if y != yUpdate {
      return;
    }
    ReactAcid(a, y, x, choice, side, direction);
  }

  /** The branches of move_acid taken when the acid did not fall. */
  method ReactAcid(a: array2<Kind>, y: int, x: int, choice: int, side: int, direction: int)
    requires 0 <= y < a.Length0 && 0 <= x < a.Length1
    requires 0 <= choice < 100 && 0 <= side < 2 && 0 <= direction < 4
    modifies a
    ensures Snapshot(a) == AcidReact(old(Snapshot(a)), y, x, choice, side, direction)
  {
    if choice < 80 {
      SidewayMotion(a, y, x, Acid, side);
    } else if choice < 95 {
      ExchangeAcid(a, y, x, direction);
    } else {
      DissolveBelow(a, y, x);
    }
  }

  method ExchangeAcid(a: array2<Kind>, y: int, x: int, direction: int)
    requires 0 <= y < a.Length0 && 0 <= x < a.Length1
    requires 0 <= direction < 4
    modifies a
    ensures Snapshot(a) == AcidExchange(old(Snapshot(a)), y, x, direction)
  {
    var dx, dy := 0, 0;
    if direction == 0 {
      dx := -1;
    } else if direction == 1 {
      dx := 1;
    } else if direction == 2 {
      dy := -1;
    } else {
      dy := 1;
    }
    assert (dy, dx) == Cardinal(direction);
    ExchangeAt(a, y, x, dy, dx);
  }

  method ExchangeAt(a: array2<Kind>, y: int, x: int, dy: int, dx: int)
    requires 0 <= y < a.Length0 && 0 <= x < a.Length1
    modifies a
    ensures Snapshot(a) == ExchangeToward(old(Snapshot(a)), y, x, dy, dx)
  {
    if x + dx < 0 || x + dx > a.Length1 - 1 {
      SetCell(a, y, x, Blank);
    } else if y + dy < 0 || y + dy > a.Length0 - 1 {
      SetCell(a, y, x, Blank);
    } else if a[y + dy, x + dx] == Water {
      SetCell(a, y, x, Water);
      SetCell(a, y + dy, x + dx, Acid);
    }
  }

  method DissolveBelow(a: array2<Kind>, y: int, x: int)
    requires 0 <= y < a.Length0 && 0 <= x < a.Length1
    modifies a
    ensures Snapshot(a) == Dissolve(old(Snapshot(a)), y, x)
  {
    if y < a.Length0 - 1 {
      if a[y + 1, x] == Metal || a[y + 1, x] == Sand {
        SetCell(a, y + 1, x, Blank);
      }
    }
  }

  method MoveGas(a: array2<Kind>, y: int, x: int, randomNumber: int, side: int)
    requires 0 <= y < a.Length0 && 0 <= x < a.Length1
    requires 0 <= randomNumber < 100 && 0 <= side < 2
    modifies a
    ensures Snapshot(a) == GasStep(old(Snapshot(a)), y, x, randomNumber, side)
  {
    var dx, dy := 0, 0;
    if randomNumber < 20 {
      if side == 0 {
        dx := -1;
      } else {
        dx := 1;
      }
    } else {
      dy := -1;
    }
    assert dx == (if randomNumber < 20 then SideOffset(side) else 0);
    assert dy == (if randomNumber < 20 then 0 else -1);
    MoveGasToward(a, y, x, dy, dx);
  }

  /** The part of move_gas after the aim is drawn. */
  method MoveGasToward(a: array2<Kind>, y: int, x: int, dy: int, dx: int)
    requires 0 <= y < a.Length0 && 0 <= x < a.Length1
    modifies a
    ensures Snapshot(a) == GasToward(old(Snapshot(a)), y, x, dy, dx)
  {
    if x + dx < 0 || x + dx > a.Length1 - 1 {
      SetCell(a, y, x, Blank);
      return;
    } else if y + dy < 0 || y + dy > a.Length0 - 1 {
      SetCell(a, y, x, Blank);
      return;
    }
    if a[y + dy, x + dx] == Blank {
      SetCell(a, y + dy, x + dx, Gas);
      SetCell(a, y, x, Blank);
    } else if a[y + dy, x + dx] == Water {
      SetCell(a, y + dy, x + dx, Gas);
      SetCell(a, y, x, Water);
    }
  }
}
