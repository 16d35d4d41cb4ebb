# Electric field simulator: a Dafny model

This project models the core of a small electrostatics simulator. The simulator does four things:

- It reads a file of stationary point charges onto a 256 by 256 grid of cells.
- It samples each cell's field intensity and potential.
- It advances a list of movable charges with a constant-acceleration integrator. Each movable charge is driven by the Coulomb field of the stationary charges.
- It runs that integrator in one of two drivers:
  - a headless loop with a step budget and an optional stop once every charge has left the grid;
  - an interactive display that takes a number of steps per frame.

Modules, one per source file or concern:

- `Helpers` (`helpers.dfy`): the `XY` vector, the bounds test and the colour chooser of the terminal printer. It also holds `Num`, a real number or the infinity sentinel, and `IsSqrt`, the property the square root passed to the model must have.
- `Wrappers` (`wrappers.dfy`): `Option` and `Result`.
- `Charges` (`charges.dfy`): the stationary and movable charge records.
- `MovableChargeField` (`movable_charge.dfy`): the field lookup used for particles. It uses Coulomb's constant K = 8.99e9 and returns no value (`None`) when the particle is closer than 2 to some stationary charge.
- `CellGridField` (`cellgrid_field.dfy`): the per-cell sampler. Its law is q·d/r² for the intensity and q/r for the potential. It returns an infinite sentinel on a charge's own cell.
- `CellGridParse` (`cellgrid_parse.dfy`): how lines of the charge file are split and checked.
- `Grid` (`cellgrid.dfy`): the `CellGrid` class, which holds the cells, the charge lists and the movement flag, and its methods. The specification functions `Deposit`, `Populated`, `Advance`, `StepAll` and `StepN` describe what those methods compute.
- `Simulation` (`simulation.dfy`): the program's flag handling, the headless loop and the display's per-frame state (`Display`).

Every loop of the source is a `method` with a `while` or `for` loop. Each method is proved against a specification function, and the properties the simulator relies on are proved as lemmas about those functions.

Inputs the model takes as parameters:

- Floating-point arithmetic is modelled by exact reals.
- The square root is a parameter `sqrt`. Every use requires `IsSqrt(sqrt)`: for s ≥ 0 the result is non-negative and squares back to s.
- Number parsing is passed in as `parseIndex` and `parseReal`.
- The input files are passed in as their lines or records.

## Model

| member | source | states |
|---|---|---|
| `Helpers.SqrtBelow` | src/movable_charge.rs:30-38 | For s ≥ 0, sqrt(s) < b exactly when s < b², for b ≥ 0. This is how the distance test r < 2 becomes a test on the squared distance. |
| `Helpers.SqrtZero` | src/cellgrid.rs:273-283 | sqrt(s) = 0 exactly when s = 0. The sampler's test r == 0 therefore means the point is on the charge. |
| `Helpers.InBounds` | src/lib/helpers.rs:62-64 | A point can be inside only when both ranges are non-empty (min_x < max_x and min_y < max_y). |
| `Helpers.InBoundsStrict` | src/lib/helpers.rs:62-64 | The bounds test is strict on all four sides. A point on a boundary is outside. |
| `Helpers.InBoundsEmptyRange` | src/lib/helpers.rs:62-64 | An empty or inverted range contains no point. |
| `Helpers.ColorCode` | src/lib/helpers.rs:47-52 | The chosen code is one of 32, 33 and 31, and infinity always gets red (31). |
| `Helpers.ColorBands` | src/lib/helpers.rs:47-52 | Green (32) exactly below max_g, yellow (33) exactly between max_g and max_y, red (31) otherwise. Infinity is never below a threshold. |
| `Helpers.NoYellowWhenInverted` | src/lib/helpers.rs:47-52 | With max_y ≤ max_g, yellow is never chosen. |
| `Helpers.PrintColor` | src/lib/helpers.rs:47-58 | The INF marker is printed exactly for an infinite number. A finite number printed in red is not below max_y. |
| `Helpers.PrintColorInfinity` | src/lib/helpers.rs:47-58 | The printer shows the INF marker exactly for an infinite number. A finite number is shown with its colour and value. |
| `MovableChargeField.SqDist` | src/movable_charge.rs:28-29 | The squared distance is the displacement dotted with itself, and it is never negative. |
| `MovableChargeField.Colliding` | src/movable_charge.rs:27-38 | Only a non-empty list of stationary charges can make the lookup collide. |
| `MovableChargeField.FarEnough` | src/movable_charge.rs:30-38 | At squared distance ≥ 4, the distance is ≥ 2 and the divisor r²·r of the lookup is positive. |
| `MovableChargeField.CoulombTerm` | src/movable_charge.rs:54-56 | The factor K·q/(r²·r) times each displacement component. It has no contract of its own; `CoulombAlong`, `CoulombSquare` and `CoulombNeg` state its properties. |
| `MovableChargeField.ContributionFactor` | src/movable_charge.rs:28-56 | One charge's contribution, written with the loop's own dx, dy, r² and r, is the Coulomb term. Here r ≥ 2 and r·r = r². |
| `MovableChargeField.Contribution` | src/movable_charge.rs:28-56 | A charge with q = 0 contributes the zero vector. `ContributionFactor` gives its value as the Coulomb term. |
| `MovableChargeField.FieldSum` | src/movable_charge.rs:26-66 | The running sum of the loop over the whole list. It has no contract of its own; `FieldSumLast`, `FieldSumNext`, `FieldSumSingle`, `FieldSumZeroCharge` and `FieldSumNegated` state its properties. |
| `MovableChargeField.FieldSumLast` | src/movable_charge.rs:26-66 | For a collision-free list, the prefix without the last charge is collision-free, the last charge is at distance ≥ 2, and the sum is the prefix's sum plus the last charge's contribution. |
| `MovableChargeField.FieldSumNext` | src/movable_charge.rs:26-66 | Adding one charge far enough away keeps the point collision-free and adds that charge's contribution to the sum. |
| `MovableChargeField.LookupStep` | src/movable_charge.rs:26-66 | One round of the loop: a charge closer than 2 means the whole list collides; otherwise the running sum grows by that charge's Coulomb term. |
| `MovableChargeField.FieldIntensityMovable` | src/movable_charge.rs:21-68 | The lookup returns `None` exactly when some stationary charge is closer than 2. Otherwise it returns the sum of every charge's Coulomb term, in list order. |
| `MovableChargeField.FieldAt` | src/movable_charge.rs:21-68 | When every stationary charge is at distance ≥ 2 from the point, the lookup gives a field value. |
| `MovableChargeField.FieldAtEmpty` | src/movable_charge.rs:21-68 | With no stationary charges there is no collision and the field is zero. |
| `MovableChargeField.FieldSumSingle` | src/movable_charge.rs:21-68 | A lone charge far enough away contributes exactly its own term. |
| `MovableChargeField.CoulombAlong` | src/movable_charge.rs:54-56 | The Coulomb term projected on the displacement (dx, dy) is K·q/r. |
| `MovableChargeField.CoulombSquare` | src/movable_charge.rs:54-56 | The squared length of the Coulomb term is (K·q/r²)². |
| `MovableChargeField.CoulombNeg` | src/movable_charge.rs:54-56 | The Coulomb term of −q is the opposite of that of q. |
| `MovableChargeField.ContributionAlongDisplacement` | src/movable_charge.rs:28-56 | One charge's field, projected on the displacement from the charge to the point, is K·q/r. A positive charge pushes away, a negative one pulls, and a zero charge contributes nothing. |
| `MovableChargeField.ContributionMagnitude` | src/movable_charge.rs:28-56 | One charge's field has squared magnitude (K·q/r²)², which is Coulomb's inverse-square law. |
| `MovableChargeField.FieldSumZeroCharge` | src/movable_charge.rs:26-66 | Removing a zero charge from any position in the list leaves the collision test and the field unchanged. |
| `MovableChargeField.WithoutNotColliding` | src/movable_charge.rs:27-38 | Dropping a stationary charge from a collision-free list keeps it collision-free. |
| `MovableChargeField.ContributionNegated` | src/movable_charge.rs:28-56 | A charge at the same place with the opposite sign has the same distance and the opposite contribution. |
| `MovableChargeField.SqDistIgnoresCharge` | src/movable_charge.rs:28-29 | The squared distance does not depend on the charge's value. |
| `MovableChargeField.CollidingNegated` | src/movable_charge.rs:36-38 | Flipping every charge leaves the collision test unchanged. |
| `MovableChargeField.FieldSumNegated` | src/movable_charge.rs:21-68 | Flipping every charge's sign negates the summed field. |
| `CellGridField.IntSqDist` | src/cellgrid.rs:271-272 | The integer squared distance is never negative and is zero exactly on the charge's own point. |
| `CellGridField.OnCharge` | src/cellgrid.rs:270-283 | Only a non-empty list of charges can put a charge on the sampled point. |
| `CellGridField.Term` | src/cellgrid.rs:285-289 | One charge's three terms off its own point. A zero charge gives zero terms. The potential term has the sign of q. |
| `CellGridField.Accumulate` | src/cellgrid.rs:268-290 | The running sums of the loop over the whole list. It has no contract of its own; `AccumulateStep` and `AccumulateNegated` state its properties. |
| `CellGridField.AccumulateStep` | src/cellgrid.rs:270-290 | One round of the sampler's loop, off the charge, adds that charge's three terms to the running sums. |
| `CellGridField.TermValue` | src/cellgrid.rs:271-289 | The loop's own dx, dy and r give the term q·dx/r², q·dy/r², q/r. r is zero exactly on the charge. |
| `CellGridField.FieldIntensityPotential` | src/cellgrid.rs:263-295 | All three components are infinite exactly when the point holds a charge. Otherwise they are the finite sums of every charge's terms, in list order. |
| `CellGridField.FieldPotentialAt` | src/cellgrid.rs:263-295 | The three components are infinite together, and exactly when a charge sits on the point. |
| `CellGridField.FieldPotentialEmpty` | src/cellgrid.rs:263-295 | With no charges every sample is zero. |
| `CellGridField.PotentialFallsWithDistance` | src/cellgrid.rs:273-289 | Around one positive charge, the potential is infinite on the charge and falls strictly with the distance elsewhere. |
| `CellGridField.TermNegated` | src/cellgrid.rs:285-289 | Flipping one charge negates its three terms. |
| `CellGridField.AccumulateNegated` | src/cellgrid.rs:268-290 | Off every charge, flipping every charge stays off every charge and negates the three running sums. |
| `CellGridField.OnChargeNegated` | src/cellgrid.rs:270-283 | Flipping every charge's sign leaves the same points on a charge, in both directions. |
| `CellGridField.FieldPotentialNegated` | src/cellgrid.rs:263-295 | Flipping every charge keeps the sentinel cells: a sample is infinite exactly when the unflipped one is, and then the two are equal. Every finite sample has all three components negated. |
| `CellGridField.GridLawVersusParticleLaw` | src/cellgrid.rs:285-289 | Where both laws apply, the sampler's intensity term is the particle lookup's term times r/K. The two laws differ by a power of r and Coulomb's constant. |
| `CellGridField.SqDistAtGridPoint` | src/cellgrid.rs:271-272 | At a grid point, the particle lookup's real squared distance equals the sampler's integer one. |
| `Grid.EmptyGrid` | src/cellgrid.rs:50-70 | h rows of w cells, each with zero charge, intensity and potential. |
| `Grid.SetQ` | src/cellgrid.rs:97 | Writing a charge keeps the grid's shape and puts the charge's q in its own cell. |
| `Grid.SetQAt` | src/cellgrid.rs:97 | Writing a charge changes only the q of its own cell. |
| `Grid.Deposit` | src/cellgrid.rs:82-99 | Loading keeps the grid's shape, and the last line's charge is in its own cell. |
| `Grid.DepositStep` | src/cellgrid.rs:82-100 | Depositing one more charge is one more write on top of the earlier ones. |
| `Grid.DepositElsewhere` | src/cellgrid.rs:82-100 | A cell that no charge names keeps its contents. |
| `Grid.DepositOnlyQ` | src/cellgrid.rs:82-100 | Loading the file changes only the q of any cell. |
| `Grid.DepositLastWins` | src/cellgrid.rs:82-100 | When two lines name the same cell, the later one's q is the one kept. |
| `Grid.Resampled` | src/cellgrid.rs:108-112 | Resampling a cell keeps its q. Its potential and its x intensity are infinite exactly when a charge sits on the cell. |
| `Grid.Populated` | src/cellgrid.rs:106-115 | Populating keeps the number of rows and the length of every row. |
| `Grid.PopulatedCells` | src/cellgrid.rs:106-115 | Populating keeps the shape and every q. Each cell gets the sampler's values at its own (x, y), and the infinite sentinel appears exactly on charge cells. |
| `Grid.PopulateTwice` | src/cellgrid.rs:106-115 | Populating twice is the same as populating once. |
| `Grid.StepAll` | src/cellgrid.rs:163-221 | One update keeps the number of charges, each charge's q and m, and the non-zero mass of every charge that can move. |
| `Grid.StepN` | src/cellgrid.rs:163-221 | n updates keep the number of charges and the non-zero masses. |
| `Grid.StepNAt` | src/cellgrid.rs:163-221 | Charge i after n updates is charge i after n − 1 updates, advanced once. |
| `Grid.AdvanceFrozen` | src/cellgrid.rs:167 | A charge that should not move is left exactly as it is. |
| `Grid.AdvanceCollides` | src/cellgrid.rs:171-183 | A moving charge closer than 2 to a stationary charge is marked collided and frozen, in place. |
| `Grid.AdvanceMoves` | src/cellgrid.rs:171-195 | A moving charge clear of every stationary charge takes a kinematic step in the particle field at its pre-step position. |
| `Grid.Advance` | src/cellgrid.rs:164-195 | One update keeps q and m. It never unfreezes a charge and never clears `collided`. A charge that collides in this update is frozen where it stood. |
| `Grid.KinematicStep` | src/cellgrid.rs:186-195 | Position moves by v·dt + ½·a·dt² with the old v and a. Velocity moves by a·dt with the old a. The new a is E·q/m. Flags, q and m are kept. |
| `Grid.Kinematic` | src/cellgrid.rs:186-195 | The kinematic step keeps the flags, q and m. With Δt = 0 it keeps the position and the velocity. |
| `Grid.FrozenStaysPut` | src/cellgrid.rs:163-221 | A frozen charge is the same charge after any number of updates. |
| `Grid.StepNAdd` | src/cellgrid.rs:163-221 | k updates followed by n updates are k + n updates. |
| `Grid.FreezeIsFinal` | src/cellgrid.rs:179-183 | Once a charge has frozen it is never updated again. |
| `Grid.StepNKeepsIdentity` | src/cellgrid.rs:163-221 | Updates keep the number and order of the charges and each charge's q and m. They never unfreeze a charge and never clear `collided`. |
| `Grid.AdvanceFree` | src/cellgrid.rs:186-195 | With no stationary charges and no acceleration, one step moves by v·dt and keeps v and a. |
| `Grid.DriftStep` | src/cellgrid.rs:186-189 | One more v·dt on n − 1 drifts is n drifts. |
| `Grid.DriftAdvance` | src/cellgrid.rs:186-195 | One free update extends the straight-line drift by one step. |
| `Grid.FreeFlight` | src/cellgrid.rs:163-221 | With no stationary charges, a charge with zero acceleration moves in a straight line and is n·v·dt further on after n updates. |
| `Grid.LoadNextCell` | src/cellgrid.rs:82-98 | A clean line extends the loaded charges by its charge and the grid by that charge's write. |
| `Grid.CellGrid.constructor` | src/cellgrid.rs:50-70 | An x by y grid of empty cells with no charges and the given movement flag. |
| `Grid.CellGrid.GetDimensions` | src/cellgrid.rs:72-74 | Returns exactly (w, h), which are the length of every row and the number of rows. |
| `Grid.CellGrid.NewFromFile` | src/cellgrid.rs:76-104 | Fails exactly when some line fails, with the first failing line's error. On success it builds a 256 by 256 grid whose charges are the lines' charges in file order, each deposited in its cell, with no movable charges. |
| `Grid.CellGrid.PopulateField` | src/cellgrid.rs:106-115 | Every cell's intensity and potential are replaced by the sampler's values at its own coordinates. |
| `Grid.CellGrid.AddMovableCharge` | src/cellgrid.rs:155-161 | Appends a moving, not collided charge with the given values. |
| `Grid.CellGrid.SetMovementTracking` | src/cellgrid.rs:223-224 | Sets the movement flag. |
| `Grid.CellGrid.IsTrackingMovement` | src/cellgrid.rs:253-255 | Reports the movement flag. |
| `Grid.CellGrid.UpdateMovableCharges` | src/cellgrid.rs:163-221 | Every movable charge is advanced once, in place, by `Advance`. |
| `CellGridParse.Word` | src/cellgrid.rs:83 | The longest whitespace-free prefix of the line. |
| `CellGridParse.Words` | src/cellgrid.rs:83 | Each field of the split is non-empty and free of whitespace. |
| `CellGridParse.WordsOfJoin` | src/cellgrid.rs:83 | Splitting fields joined by single spaces gives the fields back. |
| `CellGridParse.WordsOfField` | src/cellgrid.rs:83 | A single non-empty, whitespace-free field splits into itself. |
| `CellGridParse.WordsCons` | src/cellgrid.rs:83 | A line that starts with a field splits into that field followed by the split of the rest. |
| `CellGridParse.WordsSplit` | src/cellgrid.rs:83 | Splitting at any whitespace character gives the fields before it followed by the fields after it. |
| `CellGridParse.ParseLine` | src/cellgrid.rs:83-96 | A line is accepted exactly when it has three fields and all three parse, and then the charge is (x, y, q) from the first, second and third. Every failure carries the line number index + 2. |
| `CellGridParse.LoadLine` | src/cellgrid.rs:83-97 | A cleanly parsed line is accepted exactly when its charge lies on the w by h grid, and then it is the parsed charge. Any other failure is the parse failure. |
| `CellGridParse.LoadCharges` | src/cellgrid.rs:82-98 | A successful load has one charge per line, and every charge lies on the grid. |
| `CellGridParse.FailsAt` | src/cellgrid.rs:82-96 | A failing line after clean lines decides the result of the whole load. |
| `CellGridParse.LoadNext` | src/cellgrid.rs:82-98 | One more line either extends the loaded charges by its charge or fails with its error. |
| `CellGridParse.WrongFieldCount` | src/cellgrid.rs:84-86 | A line without exactly three fields is refused with line number index + 2. |
| `CellGridParse.LoadedInOrder` | src/cellgrid.rs:82-98 | A successful load holds one charge per line, in file order. Each charge is its line's own parse and lies on the grid. |
| `CellGridParse.AllLinesLoad` | src/cellgrid.rs:82-98 | When every line loads, the file loads. |
| `CellGridParse.StopsAtFirstBadLine` | src/cellgrid.rs:82-96 | The load fails with the first failing line's error, whatever follows it. |
| `Simulation.StepsWithStop` | src/main.rs:472-489 | With a budget, the stop loop performs at least one and at most budget updates. |
| `Simulation.InsideUntilStop` | src/main.rs:472-489 | Every update before the last leaves some charge inside the grid. |
| `Simulation.OutsideAtStop` | src/main.rs:472-489 | A loop that ends before its budget ends right after an update that leaves no charge inside. |
| `Simulation.StopsAtFirstExit` | src/main.rs:472-489 | The stop loop ends right after the first update that leaves no charge inside, or when the budget runs out. |
| `Simulation.NoChargesOneStep` | src/main.rs:472-489 | With no movable charges, the stop loop performs one update. |
| `Simulation.AnyChargeInside` | src/main.rs:478-486 | True exactly when some movable charge is strictly inside (0, w) × (0, h). |
| `Simulation.AnyInside` | src/main.rs:480-486 | Some charge can be inside only when there is a charge and both sides of the grid are positive. |
| `Simulation.StopLoopStep` | src/main.rs:472-489 | One round of the stop loop, in terms of the updates still to come. |
| `Simulation.StepWhileInside` | src/main.rs:472-489 | The stop loop performs `StepsWithStop` updates and leaves the charges after that many updates. |
| `Simulation.StepFixed` | src/main.rs:490-494 | Exactly max_steps updates. |
| `Simulation.SimulateHeadless` | src/main.rs:470-494 | With the stop flag the loop performs `StepsWithStop` updates, otherwise max_steps. The charges end after exactly that many updates. |
| `Simulation.Placed` | src/main.rs:439-442 | The movable charges from the file, all moving and not collided, with their masses kept. |
| `Simulation.PlacedMassive` | src/main.rs:439-442 | Charges placed from records with non-zero mass can all be moved. |
| `Simulation.StartCells` | src/main.rs:386-404 | The cells after loading and optional sampling keep the 256 by 256 shape. |
| `Simulation.PlaceAll` | src/main.rs:439-442 | Adding the file's movable charges one by one gives exactly `Placed` of the records, in order. |
| `Simulation.Setup` | src/main.rs:386-442 | Fails exactly when the charge file fails, with the first failing line's error. Otherwise the grid is 256 by 256, holds the file's charges, and its cells are the deposited charges, sampled exactly when the field is saved or displayed. Its movable charges are the placed records. |
| `Simulation.RunProgram` | src/main.rs:378-514 | A load error is returned exactly when the file fails, and it is the first failing line's error. The returned cells are the deposited charges, sampled exactly when the field is saved or displayed. Headless without movement saving stops without simulating. Headless with movement saving runs the loop for the stated number of steps, and the returned movable charges are the placed ones after exactly that many updates. Without a simulation they are the placed ones. The display refuses movement saving. |
| `Simulation.Toggled` | src/main.rs:324-329 | A click always flips the mouse charge's sign. |
| `Simulation.Display.constructor` | src/main.rs:33-48 | 1000 steps per frame of 1e-8 each, paused, positive mouse charge, no time elapsed. |
| `Simulation.Display.Frame` | src/main.rs:77-82 | While running, a frame performs steps_by_frame updates (none when that is not positive) and adds Δt·steps_by_frame to the elapsed time. Space flips running, a click flips the mouse charge, and the settings are kept. |

## Left out

- Floating point: every `f64` is an exact real. Rounding, NaN and negative infinity are not modelled. `f64::INFINITY` is the `Infinity` value of `Num`.
- The square root is a parameter described only by `IsSqrt`. `XY::length`, `normalize` and `angle` (src/lib/helpers.rs:9-23) are not modelled. `length` is used in drawing, in the field export (src/cellgrid.rs:130) and in the console printout of the intensity (src/cellgrid.rs:141); the export and the printout are I/O, left out below.
- Summation order: sums are taken in list order, as the loops do. No rounding-order argument is made.
- File and console I/O are not modelled:
  - reading the files (the charge file is given as its lines);
  - `ensure_files_exist`;
  - writing the field and the movement history;
  - the timing printouts.
- `lines()` handling of line endings is not modelled.
- `str::parse` is not modelled: number parsing is the `parseIndex` and `parseReal` parameters.
- The parse `unwrap` panics and the out-of-grid panic of the file loader are modelled as `Failure` results with the error kinds of `LoadError`. No partial grid is returned.
- Comment lines: the loader does not skip lines starting with `#`. The model follows the code, so such a line fails like any other malformed line.
- `clap` argument parsing is not modelled: `Args` holds the parsed flags and `DefaultArgs` their defaults.
- Movable-charge file reading (`MovableCharge::vec_from_file` and `MovableCharge::new`) is not part of this model. The charges arrive as `NewCharge` records, and `AddMovableCharge` sets `collided` to false.
- Rendering is not modelled: the image, the texture, the vector arrows, the charge drawing and the egui windows.
- Edits through the egui window are left out: the `running` toggle (src/main.rs:305) and the `steps_by_frame` and `delta_t` fields (src/main.rs:308, 311). `Frame` changes `running` only on the space key and keeps the other two unchanged.
- Charges cannot be added with the mouse in the program: a click only flips the sign of `mouse_charge` (src/main.rs:323-329), which `Toggled` models, and adding charges in the window is listed as a TODO (src/main.rs:335-338).
- Movement history recording is not modelled: `save_movement_history` is not part of this model, and neither are the per-charge files `add_movable_charge` creates when tracking is on. `SetMovementTracking` sets the flag only.
- Integer widths:
  - the grid coordinates are `nat`;
  - `i32` arithmetic in the sampler cannot overflow on a 256 by 256 grid;
  - `max_krokow` is a `nat`, not a `u32`;
  - `steps_by_frame` is an unbounded `int`.
- Grid.CellGrid.UpdateMovableCharges: requires every charge that can move to have non-zero mass (`Massive`). The source divides by m without a check, which gives infinity or NaN for m = 0.
- Simulation.RunProgram: requires non-zero masses on the movable charges (`Weighed`) for the same reason.
- Simulation.Setup: requires the same non-zero masses (`Weighed`).
- Simulation.StepWhileInside: requires the same non-zero masses (`Massive`).
- Simulation.StepFixed: requires the same non-zero masses (`Massive`).
- Simulation.SimulateHeadless: requires the same non-zero masses (`Massive`).
- Simulation.Display.Frame: requires the same non-zero masses.
- Line-by-line writes in `NewFromFile`: the model collects the cells and the charge list in local variables and stores them in the grid after the last line, where the source writes into the grid line by line. A failing line ends the program in both, so no reachable state differs.
