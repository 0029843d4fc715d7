/**
 * Concrete runs of the model: the falling-sand column, the explosion
 * extent around a bomb, a gas particle that rises more than once in a
 * single tick, and water that gas leaves on the last row.
 */
module Scenarios {
  import opened Substances
  import opened Pictures
  import opened Motion
  import opened Species
  import opened Explosion
  import opened Engine

  /** A grid of three one-cell rows is determined by its three cells. */
  lemma Column3(g: Grid, top: Kind, middle: Kind, bottom: Kind)
    requires Rect(g) && |g| == 3 && Width(g) == 1
    requires g[0][0] == top && g[1][0] == middle && g[2][0] == bottom
    ensures g == [[top], [middle], [bottom]]
  {
    assert g[0] == [top] && g[1] == [middle] && g[2] == [bottom];
  }

  /**
   * A 3x1 picture with sand on top, at speed 100: the first tick moves the
   * sand one row down; the second lands it on the last row, where it is
   * deleted, leaving the picture empty.
   */
  lemma SandColumn(draws: Draws)
    requires forall i, j :: ValidDraw(draws(i, j))
    ensures Tick([[Sand], [Blank], [Blank]], 100, draws, RADIUS) == [[Blank], [Sand], [Blank]]
    ensures Tick([[Blank], [Sand], [Blank]], 100, draws, RADIUS) == [[Blank], [Blank], [Blank]]
  {
    var g0: Grid := [[Sand], [Blank], [Blank]];
    var g1: Grid := [[Blank], [Sand], [Blank]];
    var g2: Grid := [[Blank], [Blank], [Blank]];
    assert draws(0, 0).gate < 100 && draws(1, 0).gate < 100;

    StepAt(g0, 2, 0, 100, draws, RADIUS);
    assert SweepRow(g0, 2, 1, Step(100, draws, RADIUS)) == g0;
    StepAt(g0, 1, 0, 100, draws, RADIUS);
    assert SweepRow(g0, 1, 1, Step(100, draws, RADIUS)) == g0;
    Column3(Fall(g0, 0, 0, Sand).grid, Blank, Sand, Blank);
    StepAt(g0, 0, 0, 100, draws, RADIUS);
    assert SweepRow(g0, 0, 1, Step(100, draws, RADIUS)) == g1;

    StepAt(g1, 2, 0, 100, draws, RADIUS);
    assert SweepRow(g1, 2, 1, Step(100, draws, RADIUS)) == g1;
    var f := Fall(g1, 1, 0, Sand);
    assert f.row == 2;
    Column3(Set(f.grid, 2, 0, Blank), Blank, Blank, Blank);
    StepAt(g1, 1, 0, 100, draws, RADIUS);
    assert SweepRow(g1, 1, 1, Step(100, draws, RADIUS)) == g2;
    StepAt(g2, 0, 0, 100, draws, RADIUS);
    assert SweepRow(g2, 0, 1, Step(100, draws, RADIUS)) == g2;
  }

  /**
   * A gas particle aimed upward is visited again in the row it rose into:
   * on a 3x1 picture whose every choice draw aims up, gas on the bottom row
   * rises through both rows and leaves the top of the picture in one tick.
   */
  lemma GasRisesWithinOneTick(draws: Draws)
    requires forall i, j :: ValidDraw(draws(i, j)) && draws(i, j).choice >= 20
    ensures Tick([[Blank], [Blank], [Gas]], 100, draws, RADIUS) == [[Blank], [Blank], [Blank]]
  {
    var g0: Grid := [[Blank], [Blank], [Gas]];
    var g1: Grid := [[Blank], [Gas], [Blank]];
    var g2: Grid := [[Gas], [Blank], [Blank]];
    var g3: Grid := [[Blank], [Blank], [Blank]];
    assert ValidDraw(draws(2, 0)) && draws(2, 0).choice >= 20;
    assert ValidDraw(draws(1, 0)) && draws(1, 0).choice >= 20;
    assert ValidDraw(draws(0, 0)) && draws(0, 0).choice >= 20;
    Column3(Set(Set(g0, 1, 0, Gas), 2, 0, Blank), Blank, Gas, Blank);
    StepAt(g0, 2, 0, 100, draws, RADIUS);
    assert SweepRow(g0, 2, 1, Step(100, draws, RADIUS)) == g1;
    Column3(Set(Set(g1, 0, 0, Gas), 1, 0, Blank), Gas, Blank, Blank);
    StepAt(g1, 1, 0, 100, draws, RADIUS);
    assert SweepRow(g1, 1, 1, Step(100, draws, RADIUS)) == g2;
    Column3(Set(g2, 0, 0, Blank), Blank, Blank, Blank);
    StepAt(g2, 0, 0, 100, draws, RADIUS);
    assert SweepRow(g2, 0, 1, Step(100, draws, RADIUS)) == g3;
  }

  /** A grid of two one-cell rows is determined by its two cells. */
  lemma Column2(g: Grid, top: Kind, bottom: Kind)
    requires Rect(g) && |g| == 2 && Width(g) == 1
    requires g[0][0] == top && g[1][0] == bottom
    ensures g == [[top], [bottom]]
  {
    assert g[0] == [top] && g[1] == [bottom];
  }

  /**
   * Last-row deletion belongs to the falling rules, not to the tick: gas on
   * the bottom row of a 2x1 picture bubbles up through the water above it,
   * which lands on the last row. That row has already been scanned, so the
   * water is still there when the tick ends, while the gas rises out of the
   * picture on its second visit.
   */
  lemma GasLeavesWaterOnLastRow(draws: Draws)
    requires forall i, j :: ValidDraw(draws(i, j)) && draws(i, j).choice >= 20
    ensures Tick([[Water], [Gas]], 100, draws, RADIUS) == [[Blank], [Water]]
  {
    var g0: Grid := [[Water], [Gas]];
    var g1: Grid := [[Gas], [Water]];
    var g2: Grid := [[Blank], [Water]];
    assert ValidDraw(draws(1, 0)) && draws(1, 0).choice >= 20;
    assert ValidDraw(draws(0, 0)) && draws(0, 0).choice >= 20;
    Column2(Set(Set(g0, 0, 0, Gas), 1, 0, Water), Gas, Water);
    StepAt(g0, 1, 0, 100, draws, RADIUS);
    assert SweepRow(g0, 1, 1, Step(100, draws, RADIUS)) == g1;
    Column2(Set(g1, 0, 0, Blank), Blank, Water);
    StepAt(g1, 0, 0, 100, draws, RADIUS);
    assert SweepRow(g1, 0, 1, Step(100, draws, RADIUS)) == g2;
  }

  /**
   * A bomb at (10, 10), held up by metal below it and touching acid on its
   * right, on a picture of at least 20x20 cells: its rule clears exactly
   * rows 5..14 by columns 5..14 and leaves every other cell as it was.
   */
  lemma ExplosionExtent(g: Grid)
    requires Rect(g) && |g| >= 20 && Width(g) >= 20
    requires g[10][10] == Bomb && g[11][10] == Metal && g[10][11] == Acid
    ensures var r := BombStep(g, 10, 10, RADIUS);
            forall i, j :: InBounds(g, i, j) ==>
              r[i][j] == if 5 <= i <= 14 && 5 <= j <= 14 then Blank else g[i][j]
  {
    BombOutcome(g, 10, 10, RADIUS);
    assert AcidAt(g, 10, 11);
    DestroyedRegion(g, 5, 5, 10);
  }

  /**
   * Acid held up by metal, on the dissolving branch: the metal below becomes
   * Blank and the acid stays where it is.
   */
  lemma AcidDissolvesMetal(g: Grid, y: int, x: int, side: int, direction: int)
    requires Rect(g) && InBounds(g, y, x) && y < |g| - 1
    requires g[y][x] == Acid && g[y + 1][x] == Metal
    ensures AcidStep(g, y, x, 97, side, direction) == Set(g, y + 1, x, Blank)
    ensures AcidStep(g, y, x, 97, side, direction)[y][x] == Acid
  {
    AcidBlockedOutcome(g, y, x, 97, side, direction);
  }
}
