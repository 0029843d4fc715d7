/**
 * One tick of the simulation (update_picture): rows from the bottom up,
 * columns from right to left, each cell activated when its gate draw is
 * below the speed and then dispatched on the substance it holds. Also the
 * speed adjustment of the key handler.
 */
module Engine {
  import opened Substances
  import opened Pictures
  import opened Motion
  import opened Species
  import opened Explosion

  /**
   * The random draws one visit of a cell may consume: the activation gate
   * (randrange(100)), the acid or gas choice (randrange(100)), a side
   * (randrange(2)) and a cardinal direction (randrange(4)). The scan visits
   * each cell once, so one record per cell covers every random stream.
   */
  datatype Draw = Draw(gate: int, choice: int, side: int, cardinal: int)

  predicate ValidDraw(d: Draw)
  {
    0 <= d.gate < 100 && 0 <= d.choice < 100 && 0 <= d.side < 2 && 0 <= d.cardinal < 4
  }

  type Draws = (int, int) -> Draw

  /** Blank and Metal have no rule. */
  predicate Inert(k: Kind)
  {
    k == Blank || k == Metal
  }

  /** One visit of cell (y, x): the gate, then the rule of the substance found there. */
  function Activate(g: Grid, y: int, x: int, speed: int, d: Draw, radius: nat): (r: Grid)
    requires Rect(g) && InBounds(g, y, x)
    ensures SameDims(g, r)
  {
    if d.gate < speed then
      match g[y][x]
      case Sand => SandStep(g, y, x)
      case Water => WaterStep(g, y, x, d.side)
      case Acid => AcidStep(g, y, x, d.choice, d.side, d.cardinal)
      case Gas => GasStep(g, y, x, d.choice, d.side)
      case Bomb => BombStep(g, y, x, radius)
      case Blank => g
      case Metal => g
    else g
  }

  /** What a visit of cell (y, x) does to the picture. */
  type Visitor = (Grid, int, int) -> Grid

  /**
   * The visit of update_picture: Activate with the cell's own draws, on a
   * rectangular picture and a cell inside it (other arguments are left
   * alone; the scan never produces them).
   */
  function Step(speed: int, draws: Draws, radius: nat): Visitor
  {
    (g: Grid, y: int, x: int) =>
      if Rect(g) && InBounds(g, y, x) then Activate(g, y, x, speed, draws(y, x), radius) else g
  }

  /** The scan order: visits columns x-1 down to 0 of row y. */
  function SweepRow(g: Grid, y: int, x: nat, visit: Visitor): Grid
    decreases x
  {
    if x == 0 then g else SweepRow(visit(g, y, x - 1), y, x - 1, visit)
  }

  /** The scan order: rows y-1 down to 0, each from its last column to its first. */
  function SweepRows(g: Grid, y: nat, visit: Visitor): Grid
    decreases y
  {
    if y == 0 then g else SweepRows(SweepRow(g, y - 1, Width(g), visit), y - 1, visit)
  }

  /** update_picture: one full pass, bottom row first. */
  function Tick(g: Grid, speed: int, draws: Draws, radius: nat): Grid
  {
    SweepRows(g, |g|, Step(speed, draws, radius))
  }

  // ---------------------------------------------------------------------
  // Dispatch
  // ---------------------------------------------------------------------

  /** A cell that fails its gate, or holds Blank or Metal, dispatches no rule. */
  lemma ActivateIdle(g: Grid, y: int, x: int, speed: int, d: Draw, radius: nat)
    requires Rect(g) && InBounds(g, y, x)
    requires d.gate >= speed || Inert(g[y][x])
    ensures Activate(g, y, x, speed, d, radius) == g
  {
  }

  /** No visit creates a substance, and metal never moves. */
  lemma ActivateConserves(g: Grid, y: int, x: int, speed: int, d: Draw, radius: nat)
    requires Rect(g) && InBounds(g, y, x)
    ensures Conserves(g, Activate(g, y, x, speed, d, radius))
    ensures MetalKept(g, Activate(g, y, x, speed, d, radius))
  {
    if d.gate < speed {
      match g[y][x]
      case Sand => SandConserves(g, y, x);
      case Water => WaterConserves(g, y, x, d.side);
      case Acid => AcidConserves(g, y, x, d.choice, d.side, d.cardinal);
      case Gas => GasConserves(g, y, x, d.choice, d.side);
      case Bomb => BombConserves(g, y, x, radius);
      case Blank => ConservesRefl(g);
      case Metal => ConservesRefl(g);
    } else {
      ConservesRefl(g);
    }
  }

  /** Inside the picture, the visit of update_picture is Activate. */
  lemma StepAt(g: Grid, y: int, x: int, speed: int, draws: Draws, radius: nat)
    requires Rect(g) && InBounds(g, y, x)
    ensures Step(speed, draws, radius)(g, y, x) == Activate(g, y, x, speed, draws(y, x), radius)
  {
  }

  // ---------------------------------------------------------------------
  // Conservation across a tick
  // ---------------------------------------------------------------------

  /** Every visit of a rectangular picture conserves the substances and keeps the metal. */
  ghost predicate Conserving(visit: Visitor)
  {
    forall g: Grid, y: int, x: int {:trigger Conserves(g, visit(g, y, x))} {:trigger MetalKept(g, visit(g, y, x))} ::
      Rect(g) ==> Conserves(g, visit(g, y, x)) && MetalKept(g, visit(g, y, x))
  }

  lemma StepConserves(speed: int, draws: Draws, radius: nat)
    ensures Conserving(Step(speed, draws, radius))
  {
    forall g: Grid, y: int, x: int | Rect(g)
      ensures Conserves(g, Step(speed, draws, radius)(g, y, x))
      ensures MetalKept(g, Step(speed, draws, radius)(g, y, x))
    {
      if InBounds(g, y, x) {
        ActivateConserves(g, y, x, speed, draws(y, x), radius);
      } else {
        ConservesRefl(g);
      }
    }
  }

  lemma {:induction false} SweepRowConserves(g: Grid, y: int, x: nat, visit: Visitor)
    requires Rect(g) && Conserving(visit)
    ensures Conserves(g, SweepRow(g, y, x, visit)) && MetalKept(g, SweepRow(g, y, x, visit))
    decreases x
  {
    if x == 0 {
      ConservesRefl(g);
    } else {
      var g1 := visit(g, y, x - 1);
      var r := SweepRow(g1, y, x - 1, visit);
      assert SweepRow(g, y, x, visit) == r;
      assert Conserves(g, g1);
      SweepRowConserves(g1, y, x - 1, visit);
      ConservesTrans(g, g1, r);
      MetalKeptTrans(g, g1, r);
    }
  }

  lemma {:induction false} SweepRowsConserves(g: Grid, y: nat, visit: Visitor)
    requires Rect(g) && Conserving(visit)
    ensures Conserves(g, SweepRows(g, y, visit)) && MetalKept(g, SweepRows(g, y, visit))
    decreases y
  {
    if y == 0 {
      ConservesRefl(g);
    } else {
      var g1 := SweepRow(g, y - 1, Width(g), visit);
      var r := SweepRows(g1, y - 1, visit);
      assert SweepRows(g, y, visit) == r;
      SweepRowConserves(g, y - 1, Width(g), visit);
      SweepRowsConserves(g1, y - 1, visit);
      ConservesTrans(g, g1, r);
      MetalKeptTrans(g, g1, r);
    }
  }

  /**
   * Across a whole tick, for every draw: no non-Blank substance occurs more
   * often, Blank occurs at least as often (so the non-Blank cells never grow
   * in number), and every Metal cell afterwards was Metal before.
   */
  lemma TickConserves(g: Grid, speed: int, draws: Draws, radius: nat)
    requires Rect(g)
    ensures Conserves(g, Tick(g, speed, draws, radius))
    ensures MetalKept(g, Tick(g, speed, draws, radius))
  {
    StepConserves(speed, draws, radius);
    SweepRowsConserves(g, |g|, Step(speed, draws, radius));
  }

  /** A row sweep is its first visit followed by the sweep of the columns left of it. */
  lemma SweepRowFirst(g: Grid, g1: Grid, y: int, x: nat, visit: Visitor)
    requires 0 < x && g1 == visit(g, y, x - 1)
    ensures SweepRow(g, y, x, visit) == SweepRow(g1, y, x - 1, visit)
  {
  }

  // ---------------------------------------------------------------------
  // Ticks that change nothing
  // ---------------------------------------------------------------------

  lemma {:induction false} SweepRowQuiet(g: Grid, y: int, x: nat, visit: Visitor)
    requires forall j :: 0 <= j < x ==> visit(g, y, j) == g
    ensures SweepRow(g, y, x, visit) == g
    decreases x
  {
    if x > 0 {
      assert visit(g, y, x - 1) == g;
      SweepRowQuiet(g, y, x - 1, visit);
    }
  }

  lemma {:induction false} SweepRowsQuiet(g: Grid, y: nat, visit: Visitor)
    requires forall i, j :: 0 <= i < y && 0 <= j < Width(g) ==> visit(g, i, j) == g
    ensures SweepRows(g, y, visit) == g
    decreases y
  {
    if y > 0 {
      SweepRowQuiet(g, y - 1, Width(g), visit);
      SweepRowsQuiet(g, y - 1, visit);
    }
  }

  /** A picture holding only Blank and Metal never changes. */
  lemma TickInert(g: Grid, speed: int, draws: Draws, radius: nat)
    requires Rect(g)
    requires forall i, j :: InBounds(g, i, j) ==> Inert(g[i][j])
    ensures Tick(g, speed, draws, radius) == g
  {
    forall i, j | 0 <= i < |g| && 0 <= j < Width(g)
      ensures Step(speed, draws, radius)(g, i, j) == g
    {
      ActivateIdle(g, i, j, speed, draws(i, j), radius);
    }
    SweepRowsQuiet(g, |g|, Step(speed, draws, radius));
  }

  /** With a speed no gate draw can fall below, a tick changes nothing. */
  lemma TickAtSpeedZero(g: Grid, speed: int, draws: Draws, radius: nat)
    requires Rect(g) && speed <= 0
    requires forall i, j :: ValidDraw(draws(i, j))
    ensures Tick(g, speed, draws, radius) == g
  {
    forall i, j | 0 <= i < |g| && 0 <= j < Width(g)
      ensures Step(speed, draws, radius)(g, i, j) == g
    {
      ActivateIdle(g, i, j, speed, draws(i, j), radius);
    }
    SweepRowsQuiet(g, |g|, Step(speed, draws, radius));
  }

  // ---------------------------------------------------------------------
  // The tick on the picture array
  // ---------------------------------------------------------------------

  /** One visit of cell (y, x) on the picture: the gate, then the dispatch. */
  method Visit(a: array2<Kind>, y: int, x: int, speed: int, draws: Draws, radius: nat)
    requires 0 <= y < a.Length0 && 0 <= x < a.Length1
    requires ValidDraw(draws(y, x))
    modifies a
    ensures Snapshot(a) == Step(speed, draws, radius)(old(Snapshot(a)), y, x)
  {
    StepAt(Snapshot(a), y, x, speed, draws, radius);
    var d := draws(y, x);
    if d.gate < speed {
      var k := a[y, x];
      if k == Sand {
        MoveSand(a, y, x);
      } else if k == Water {
        MoveWater(a, y, x, d.side);
      } else if k == Acid {
        MoveAcid(a, y, x, d.choice, d.side, d.cardinal);
      } else if k == Gas {
        MoveGas(a, y, x, d.choice, d.side);
      } else if k == Bomb {
        CheckBomb(a, y, x, radius);
      }
    }
  }

  /** The inner loop of update_picture: row y, from the last column to the first. */
  method UpdateRow(a: array2<Kind>, y: int, speed: int, draws: Draws, radius: nat)
    requires 0 <= y < a.Length0
    requires forall i, j :: ValidDraw(draws(i, j))
    modifies a
    ensures Snapshot(a) == SweepRow(old(Snapshot(a)), y, a.Length1, Step(speed, draws, radius))
  {
    ghost var g := Snapshot(a);
    ghost var visit := Step(speed, draws, radius);
    var n := a.Length1;
    while n > 0
      invariant 0 <= n <= a.Length1
      invariant SweepRow(Snapshot(a), y, n, visit) == SweepRow(g, y, a.Length1, visit)
    {
      var x := n - 1;
      ghost var s := Snapshot(a);
      Visit(a, y, x, speed, draws, radius);
      SweepRowFirst(s, Snapshot(a), y, n, visit);
      n := x;
    }
  }

  /** update_picture: every row from the bottom up. */
  method UpdatePicture(a: array2<Kind>, speed: int, draws: Draws, radius: nat)
    requires forall i, j :: ValidDraw(draws(i, j))
    modifies a
    ensures Snapshot(a) == Tick(old(Snapshot(a)), speed, draws, radius)
    ensures Conserves(old(Snapshot(a)), Snapshot(a)) && MetalKept(old(Snapshot(a)), Snapshot(a))
  {
    ghost var g := Snapshot(a);
    var y := a.Length0 - 1;
    while y >= 0
      invariant -1 <= y < a.Length0
      invariant SweepRows(Snapshot(a), y + 1, Step(speed, draws, radius)) == Tick(g, speed, draws, radius)
      decreases y + 1
    {
      UpdateRow(a, y, speed, draws, radius);
      y := y - 1;
    }
    TickConserves(g, speed, draws, radius);
  }

  // ---------------------------------------------------------------------
  // Speed adjustment
  // ---------------------------------------------------------------------

  /** Key 'u': triple the speed, capped at 100. */
  function SpeedUp(speed: int): (r: int)
    ensures 1 <= speed <= 100 ==> speed <= r <= 100
    ensures 1 <= speed < 100 ==> r > speed
    ensures speed >= 100 ==> r == speed
  {
    if speed < 100 then
      if speed * 3 < 100 then speed * 3 else 100
    else speed
  }

  /** Key 'd': a third of the speed, rounded down, but never below 1. */
  function SpeedDown(speed: int): (r: int)
    ensures 1 <= speed ==> 1 <= r <= speed
    ensures 1 < speed ==> r < speed
    ensures 1 < speed ==> 3 * (r - 1) <= speed < 3 * (r + 1)
  {
    var s := if speed > 1 then speed / 3 else speed;
    if s == 0 then 1 else s
  }
}
