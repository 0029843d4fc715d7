# Falling sands: a verified model of the update engine

This project models the core of a falling-sand game, `falling_sands.py`. The
picture is an H×W grid of substances: Blank, Metal, Sand, Water, Acid, Gas and
Bomb. One tick (`update_picture`) scans the grid bottom row first and right to
left within a row. A random gate activates each cell, and the activated cell
runs the rule of the substance it holds:

- Sand falls.
- Water falls, and drifts sideways when it cannot fall.
- Acid falls; when it cannot fall it drifts, swaps with water in a cardinal
  direction, or dissolves metal or sand below it.
- Gas rises or drifts, and bubbles through water.
- A bomb falls, and explodes when it rests next to acid. The explosion clears
  a square of side `2*radius`.

A falling particle whose fall ends on the last row is deleted.

Structure:

- `substances.dfy` (`Substances`): the substance kinds and their stored codes.
  The model's picture holds `Kind` values, so no operation uses the codes.
  `Code` and `FromCode` only document the integer encoding the Python
  picture stores, and their round trips show that encoding is one-to-one.
- `picture.dfy` (`Pictures`): the grid as a value (`Grid = seq<seq<Kind>>`)
  and as the `array2<Kind>` the game mutates. `Snapshot(a)` turns the array
  into a value. This module also holds `clear_picture`, `count2d` and the
  conservation vocabulary:
  - `Preserves`: the same count for every substance.
  - `Conserves`: no non-Blank substance gains cells, and Blank loses none.
  - `MetalKept`: a cell ends up Metal only if it was Metal before.
- `motion.dfy` (`Motion`): `vertical_motion` (`Fall`) and `sideway_motion`
  (`Drift`).
- `species.dfy` (`Species`): `move_sand`, `move_water`, `move_acid` and
  `move_gas`.
- `bomb.dfy` (`Explosion`): `check_bomb`, the anchor loop, `destroy` and
  `next_to_acid`.
- `engine.dfy` (`Engine`): the per-cell dispatch, the scan, `update_picture`,
  and the speed keys of the main loop. The scan order (`SweepRow`,
  `SweepRows`) takes the visit of a cell as a function value (`Visitor`).
  Its lemmas hold for any visitor with the stated property. `Step` is the
  visit of `update_picture`: the gate, then the dispatch.
- `scenarios.dfy` (`Scenarios`): concrete runs.

Each rule is defined twice, once in each of two forms:

- A function on `Grid` values that follows the Python branch by branch, with
  the same guards, constants and order of writes.
- A method on the `array2` that does what the Python does, in place. Its
  postcondition ties the new contents to that function applied to the old
  contents: `Snapshot(a) == Spec(old(Snapshot(a)), ...)`.

The properties are lemmas about the functions. Because each method equals its
function, the lemmas hold for the methods too. `UpdatePicture` also states
conservation directly.

Random numbers are parameters. A `Draw` record holds one visit's draws: the
gate and choice draws (`randrange(100)`), a side (`randrange(2)`) and a
cardinal direction (`randrange(4)`). A tick takes `draws: (int, int) -> Draw`,
one record per cell. The scan visits every cell exactly once and draws only
while visiting it. So every stream of random numbers corresponds to some such
function, and every property is proved for all draws.

The grid size is general: any H and W stand in for the 80×80 window. The
explosion radius is a parameter, and `RADIUS = 5` is the game's default.

Conservation is stated on counts, not on single cells. A fall or a drift moves
a particle into a Blank cell, so one cell does go from Blank to non-Blank. But
every rule only exchanges two cells or clears cells. Hence no tick increases
the count of any non-Blank substance, and the Blank count never falls. Since
the number of cells is fixed, the non-Blank count never grows, and neither
does the Metal count. `MetalKept` adds that metal is never moved or created,
only cleared.

Three consequences of the scan order:

- A particle can be processed more than once per tick. A gas particle that
  rises lands in a row that has not been scanned yet, and is visited again
  there. Likewise, a particle that drifts left lands in a column not yet
  scanned. `Scenarios.GasRisesWithinOneTick` shows gas on the bottom row of a
  3×1 picture rising through every row and leaving the picture within one
  tick, when all its choice draws aim up.
- So gas at (5,5) at speed 100 with an upward draw does not stop at (4,5) if
  its next visit, in row 4, moves it again.
- Last-row deletion is part of the falling rules, not of the tick. Gas that
  bubbles up through water moves the water down, possibly onto the last row.
  That row has already been scanned, so the water stays there at the end of
  the tick (`Scenarios.GasLeavesWaterOnLastRow`).

## Model

| member | source | states |
|---|---|---|
| `Substances.Code` | falling_sands.py:19-25 | Each substance gets a code in 0..6, and code 0 is exactly BLANK. |
| `Substances.FromCode` | falling_sands.py:19-25 | A code names a substance exactly when it is in 0..6. |
| `Substances.CodeRoundTrip` | falling_sands.py:19-25 | Decoding the code of a substance gives that substance back. |
| `Substances.FromCodeRoundTrip` | falling_sands.py:19-25 | Encoding the substance named by a valid code gives that code back. |
| `Pictures.ClearPicture` | falling_sands.py:39-52 | After clearing, the picture equals the all-Blank grid of its size. |
| `Pictures.CountBlanks` | falling_sands.py:39-52 | A cleared H×W picture holds H*W Blank cells and no other substance. |
| `Pictures.Count2d` | falling_sands.py:73-88 | Summing the per-row counts gives the number of cells of the picture holding `thing`. |
| `Pictures.CountSet` | falling_sands.py:85-88 | One cell write changes a substance's count by -1, 0 or +1, as the old and new kinds of the cell say. |
| `Pictures.SetCell` | falling_sands.py:169-170 | A cell write changes that one cell and nothing else. |
| `Pictures.SwapPreserves` | falling_sands.py:168-176 | Exchanging two cells keeps every substance's count, and keeps metal in place when neither cell is Metal. |
| `Pictures.SwapConserves` | falling_sands.py:168-176 | Exchanging two distinct non-Metal cells creates no substance and never moves or creates metal. |
| `Pictures.BlankingConserves` | falling_sands.py:388-399 | Clearing any set of cells creates no substance and creates or moves no metal. |
| `Motion.VerticalMotion` | falling_sands.py:146-177 | The in-place fall leaves the picture and returns the row that `Fall` gives for the old picture. |
| `Motion.FallOutcome` | falling_sands.py:162-177 | On the last row nothing changes and the row stays y. Over Blank, the particle moves to (y+1,x) and leaves Blank behind. Sand or acid over Water exchanges with it. Otherwise nothing changes. Only (y,x) and (y+1,x) can change. |
| `Motion.FallStaysIffBlocked` | falling_sands.py:162-177 | The reported row stays y exactly when y is the last row, or the cell below is neither Blank nor Water that the particle sinks through. In that case the picture is unchanged. |
| `Motion.FallPreserves` | falling_sands.py:168-176 | A fall only exchanges cells, so every count is kept and metal is never moved. |
| `Motion.SidewayMotion` | falling_sands.py:180-212 | The in-place drift leaves the picture that `Drift` gives for the old picture. |
| `Motion.DriftOutcome` | falling_sands.py:197-212 | Off-grid target: the particle is deleted. Non-Blank target: nothing changes. Otherwise the particle moves to (y,x+dx) and leaves Blank. Only row y, columns x and x+dx, can change. |
| `Motion.DriftConserves` | falling_sands.py:204-212 | A drift creates no substance and never moves metal. A drift whose target is inside the row keeps every substance's count exactly; only deletion at the edge lowers one. |
| `Species.Cardinal` | falling_sands.py:253-264 | The four-way draw always yields a unit step along exactly one axis. |
| `Species.MoveSand` | falling_sands.py:91-109 | The in-place sand rule leaves the picture that `SandStep` gives for the old picture. |
| `Species.MoveWater` | falling_sands.py:112-143 | The in-place water rule leaves the picture that `WaterStep` gives for the old picture. |
| `Species.MoveAcid` | falling_sands.py:215-281 | The in-place acid rule leaves the picture that `AcidStep` gives for the old picture. |
| `Species.ReactAcid` | falling_sands.py:247-281 | The in-place reaction of acid that did not fall leaves the picture that `AcidReact` gives. |
| `Species.ExchangeAcid` | falling_sands.py:252-276 | The in-place cardinal exchange leaves the picture that `AcidExchange` gives. |
| `Species.ExchangeAt` | falling_sands.py:265-276 | The in-place exchange toward a given offset leaves the picture that `ExchangeToward` gives. |
| `Species.ExchangeTowardConserves` | falling_sands.py:265-276 | Exchanging acid with water at any nonzero offset, or deleting it at the edge, creates no substance and never moves or creates metal. With an in-bounds target every count is kept exactly. |
| `Species.DissolveBelow` | falling_sands.py:277-281 | The in-place dissolving branch leaves the picture that `Dissolve` gives. |
| `Species.MoveGas` | falling_sands.py:284-326 | The in-place gas rule leaves the picture that `GasStep` gives for the old picture. |
| `Species.BottomRowDeletes` | falling_sands.py:106-109 | If the fall of sand, water or acid ends on the last row, that cell is Blank afterwards (also lines 132-136 and 237-241). A particle already on the last row is deleted, and nothing else changes. |
| `Species.WaterBlockedDrifts` | falling_sands.py:137-143 | Water above the last row with a non-Blank cell below drifts exactly as `sideway_motion` does. |
| `Species.WaterFallsStraight` | falling_sands.py:132-140 | Water that falls into a Blank cell above the last row only moves down one row. |
| `Species.AcidBlockedOutcome` | falling_sands.py:247-281 | Blocked acid, by draw. Below 80: it drifts. From 80 to 94: an off-grid cardinal target deletes it, a Water target is exchanged with it, and any other target leaves everything unchanged. 95 or more: Metal or Sand below becomes Blank, anything else stays, and the acid's cell is unchanged. |
| `Species.GasOutcome` | falling_sands.py:298-326 | A draw of 20 or more targets (y-1,x); a smaller one targets (y,x±1). Off-grid target: the gas is deleted. Blank target: the gas moves there. Water target: it becomes Gas and the origin becomes Water. Any other target: no change. Only the origin and the target can change. |
| `Species.SandConserves` | falling_sands.py:106-109 | The sand rule creates no substance and never moves or creates metal. |
| `Species.WaterConserves` | falling_sands.py:132-143 | The water rule creates no substance and never moves or creates metal. |
| `Species.AcidExchangeConserves` | falling_sands.py:252-276 | The cardinal exchange with water, or the deletion at the edge, creates no substance and never moves or creates metal. |
| `Species.DissolveConserves` | falling_sands.py:277-281 | Dissolving the cell below creates no substance and never moves or creates metal. |
| `Species.AcidReactConserves` | falling_sands.py:247-281 | The three acid reactions create no substance and never move or create metal. |
| `Species.AcidConserves` | falling_sands.py:237-281 | The whole acid rule creates no substance and never moves or creates metal. |
| `Species.MoveGasToward` | falling_sands.py:312-326 | The in-place gas move toward a chosen offset leaves the picture that `GasToward` gives. |
| `Species.GasTowardConserves` | falling_sands.py:312-326 | Moving gas toward any nonzero offset creates no substance and never moves or creates metal. With an in-bounds target, whether the gas moves into Blank, bubbles through Water or is blocked, every count is kept exactly. |
| `Species.GasConserves` | falling_sands.py:312-326 | The gas rule creates no substance and never moves or creates metal. |
| `Explosion.NextToAcidExists` | falling_sands.py:402-430 | The trigger holds exactly when some in-bounds cell at Manhattan distance 1 holds Acid, in both directions. |
| `Explosion.ScanNextToAcid` | falling_sands.py:416-430 | The four-offset scan with an early return answers exactly `NextToAcid` of the current picture. |
| `Explosion.FindAnchor` | falling_sands.py:359-366 | RADIUS clamped unit steps give the corner (max(0,y-radius), max(0,x-radius)) for in-grid coordinates. |
| `Explosion.Destroy` | falling_sands.py:371-399 | The in-place explosion leaves the picture that `Destroyed` gives for the old picture. |
| `Explosion.DestroyedRegion` | falling_sands.py:388-399 | Exactly the in-bounds cells with row in [top, top+2R) and column in [left, left+2R) become Blank. Every other cell is unchanged. |
| `Explosion.ExplosionClearsTrigger` | falling_sands.py:359-399 | With radius 2 or more, the explosion clears the bomb's own cell and all its in-bounds 4-neighbours, the triggering acid included. |
| `Explosion.CheckBomb` | falling_sands.py:329-368 | The in-place bomb rule leaves the picture that `BombStep` gives for the old picture. |
| `Explosion.BombOutcome` | falling_sands.py:344-368 | A bomb on the last row is deleted and never explodes. A bomb that can fall only falls, and is deleted if it lands on the last row. A bomb blocked above the last row explodes exactly when it is next to acid; otherwise nothing changes. |
| `Explosion.BombConserves` | falling_sands.py:344-368 | The bomb rule, explosion included, creates no substance and never moves or creates metal. |
| `Engine.ActivateIdle` | falling_sands.py:446-456 | A cell whose gate draw is not below the speed, or that holds Blank or Metal, dispatches no rule. |
| `Engine.ActivateConserves` | falling_sands.py:446-456 | Any single cell visit creates no substance and never moves or creates metal. |
| `Engine.Visit` | falling_sands.py:446-456 | The in-place gate and dispatch leave the picture that the `Step` visitor gives at that cell: the dispatch `Activate` with that cell's draws. |
| `Engine.UpdateRow` | falling_sands.py:445-456 | The inner loop, right to left, leaves the picture that `SweepRow` gives with the `Step` visitor. |
| `Engine.UpdatePicture` | falling_sands.py:433-456 | One tick leaves the picture that `Tick` gives, creates no substance and never moves or creates metal. |
| `Engine.StepConserves` | falling_sands.py:446-456 | The visit `update_picture` makes at any cell creates no substance and never moves or creates metal. |
| `Engine.SweepRowConserves` | falling_sands.py:445-456 | With a visitor that creates no substance and keeps metal, a right-to-left row sweep does neither. |
| `Engine.SweepRowsConserves` | falling_sands.py:444-456 | With such a visitor, sweeping the rows bottom-up creates no substance and never moves or creates metal. |
| `Engine.SweepRowQuiet` | falling_sands.py:445-456 | A row sweep whose every visit leaves the picture alone changes nothing. |
| `Engine.SweepRowsQuiet` | falling_sands.py:444-456 | A bottom-up sweep whose every visit leaves the picture alone changes nothing. |
| `Engine.TickConserves` | falling_sands.py:433-456 | For all draws, a tick does not increase any non-Blank count, does not decrease the Blank count, and never moves or creates metal. |
| `Engine.TickInert` | falling_sands.py:444-456 | A picture holding only Blank and Metal is unchanged by a tick. |
| `Engine.TickAtSpeedZero` | falling_sands.py:446 | With speed 0 or less no gate opens, and a tick changes nothing. |
| `Engine.SpeedUp` | falling_sands.py:513-520 | From any speed in [1,100] the result stays in [1,100] and does not decrease; below 100 it strictly increases; at 100 or more it is unchanged. |
| `Engine.SpeedDown` | falling_sands.py:522-528 | From any speed of 1 or more the result is in [1, speed]. Above 1 it strictly decreases and is within one of a third of the old speed. |
| `Scenarios.SandColumn` | falling_sands.py:91-109 | On a 3×1 picture at speed 100, sand on top falls one row in the first tick and is deleted on the last row in the second. |
| `Scenarios.GasRisesWithinOneTick` | falling_sands.py:298-322 | Gas aimed upward is visited again in the row it rose into. From the bottom of a 3×1 picture it leaves the picture within one tick. |
| `Scenarios.GasLeavesWaterOnLastRow` | falling_sands.py:298-326 | In a 2×1 picture of water over gas at speed 100 with upward draws, the gas bubbles up and then leaves the picture. The water ends the tick on the last row. |
| `Scenarios.ExplosionExtent` | falling_sands.py:329-399 | Take a bomb at (10,10) over metal, with acid at (10,11), on a picture of at least 20×20. Its rule clears exactly rows 5..14 × columns 5..14 and leaves the rest unchanged. |
| `Scenarios.AcidDissolvesMetal` | falling_sands.py:277-281 | Acid over metal, on the dissolving branch, turns the metal into Blank and stays where it is. |

## Left out

- `main`: the pygame window, event loop, key-to-substance mapping, pause flag
  and mouse painting are input and output glue and are not modelled. Only the
  speed arithmetic of keys 'u' and 'd' is (`SpeedUp`, `SpeedDown`).
- `draw_screen` and the `color` table are rendering through pygame and are
  not modelled.
- The distribution of `random.randrange` is not modelled: the 80/15/5 acid
  split and the 20/80 gas split are not stated as probabilities. Draws are
  arbitrary values in range, and every property holds for all of them.
- Random draws are supplied as one `Draw` record per visited cell. This
  replaces the single sequential stream of the Python code. Each cell is
  visited once per tick, so no stream is lost, but the order in which numbers
  leave the generator is not modelled.
- `Explosion.Destroy` requires a corner of 0 or more. In Python a negative
  index would wrap around to the far edge. `check_bomb` never passes a
  negative corner, and the model leaves that wrap-around out.
- The picture holds a `Kind`, not an arbitrary integer. A nested list holding
  a code outside 0..6 cannot be represented, and such a cell is inert in the
  Python code anyway.
- The speed is not required to lie in [1,100] for a tick, because
  `update_picture` does not require it. `Engine.TickAtSpeedZero` states what
  happens at speed 0 or less.
- A claim that each particle is processed at most once per tick is not
  modelled, because it is false for the code. `Scenarios.GasRisesWithinOneTick`
  gives a counterexample.
- No lemma says the last row is empty after a tick, because the code does not
  ensure it. Only each falling rule deletes its own particle on the last row
  (`Species.BottomRowDeletes`, `Explosion.BombOutcome`). Gas bubbling through
  water can leave that water on the last row at the end of a tick, as
  `Scenarios.GasLeavesWaterOnLastRow` shows.
