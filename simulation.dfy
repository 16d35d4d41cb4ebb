// The program's driver: which of loading, sampling and simulating run for a
// given set of command-line flags, the headless step loop with its optional
// stop once every movable charge has left the grid, and the interactive
// display's per-frame stepping and elapsed-time accounting.

module Simulation {
  import opened Helpers
  import opened Wrappers
  import opened Charges
  import opened CellGridParse
  import opened Grid

  /** Some movable charge, frozen or not, lies strictly inside (0, w) x (0, h). */
  predicate AnyInside(ms: seq<MovableCharge>, w: real, h: real)
    ensures AnyInside(ms, w, h) ==> |ms| > 0 && 0.0 < w && 0.0 < h
  {
    exists i :: 0 <= i < |ms| && InBounds(ms[i].x, ms[i].y, 0.0, w, 0.0, h)
  }

  /**
   * The number of updates the headless loop performs with the stop flag and
   * a budget of `budget` steps: each step is followed by the bounds check,
   * and the loop ends after the first step that leaves no charge inside.
   */
  function StepsWithStop(ms: seq<MovableCharge>, cs: seq<StationaryCharge>, dt: real, sqrt: real -> real,
                         w: real, h: real, budget: nat): (n: nat)
    requires IsSqrt(sqrt) && Massive(ms)
    ensures n <= budget
    ensures budget > 0 ==> n >= 1
    decreases budget
  {
    if budget == 0 then 0
    else
      var next := StepAll(ms, cs, dt, sqrt);
      if AnyInside(next, w, h) then 1 + StepsWithStop(next, cs, dt, sqrt, w, h, budget - 1) else 1
  }

  /** Stepping once and then k times is stepping k + 1 times. */
  lemma StepNFront(ms: seq<MovableCharge>, cs: seq<StationaryCharge>, dt: real, sqrt: real -> real, k: nat)
    requires IsSqrt(sqrt) && Massive(ms)
    ensures StepN(StepAll(ms, cs, dt, sqrt), cs, dt, sqrt, k) == StepN(ms, cs, dt, sqrt, k + 1)
  {
    assert StepN(ms, cs, dt, sqrt, 1) == StepAll(ms, cs, dt, sqrt);
    StepNAdd(ms, cs, dt, sqrt, 1, k);
  }

  /** With the stop flag, every step before the last leaves some charge inside. */
  lemma {:induction false} InsideUntilStop(ms: seq<MovableCharge>, cs: seq<StationaryCharge>, dt: real, sqrt: real -> real,
                                           w: real, h: real, budget: nat, k: nat)
    requires IsSqrt(sqrt) && Massive(ms)
    requires 1 <= k < StepsWithStop(ms, cs, dt, sqrt, w, h, budget)
    ensures AnyInside(StepN(ms, cs, dt, sqrt, k), w, h)
    decreases budget
  {
    var next := StepAll(ms, cs, dt, sqrt);
    assert AnyInside(next, w, h);
    assert StepsWithStop(ms, cs, dt, sqrt, w, h, budget) == 1 + StepsWithStop(next, cs, dt, sqrt, w, h, budget - 1);
    if k == 1 {
      assert StepN(ms, cs, dt, sqrt, 1) == next;
    } else {
      InsideUntilStop(next, cs, dt, sqrt, w, h, budget - 1, k - 1);
      StepNFront(ms, cs, dt, sqrt, k - 1);
    }
  }

  /** With the stop flag, a loop that ends before its budget ends on a step that leaves no charge inside. */
  lemma {:induction false} OutsideAtStop(ms: seq<MovableCharge>, cs: seq<StationaryCharge>, dt: real, sqrt: real -> real,
                                         w: real, h: real, budget: nat)
    requires IsSqrt(sqrt) && Massive(ms)
    requires StepsWithStop(ms, cs, dt, sqrt, w, h, budget) < budget
    ensures !AnyInside(StepN(ms, cs, dt, sqrt, StepsWithStop(ms, cs, dt, sqrt, w, h, budget)), w, h)
    decreases budget
  {
    var next := StepAll(ms, cs, dt, sqrt);
    assert StepN(ms, cs, dt, sqrt, 1) == next;
    if AnyInside(next, w, h) {
      var m := StepsWithStop(next, cs, dt, sqrt, w, h, budget - 1);
      assert StepsWithStop(ms, cs, dt, sqrt, w, h, budget) == 1 + m;
      OutsideAtStop(next, cs, dt, sqrt, w, h, budget - 1);
      StepNFront(ms, cs, dt, sqrt, m);
    } else {
      assert StepsWithStop(ms, cs, dt, sqrt, w, h, budget) == 1;
    }
  }

  /**
   * With the stop flag, every step before the last leaves some charge inside,
   * and a loop that ends before its budget ends right after the first step
   * that leaves none inside.
   */
  lemma StopsAtFirstExit(ms: seq<MovableCharge>, cs: seq<StationaryCharge>, dt: real, sqrt: real -> real,
                         w: real, h: real, budget: nat)
    requires IsSqrt(sqrt) && Massive(ms)
    ensures var n := StepsWithStop(ms, cs, dt, sqrt, w, h, budget);
      (forall k :: 1 <= k < n ==> AnyInside(StepN(ms, cs, dt, sqrt, k), w, h)) &&
      (n < budget ==> !AnyInside(StepN(ms, cs, dt, sqrt, n), w, h))
  {
    var n := StepsWithStop(ms, cs, dt, sqrt, w, h, budget);
    forall k | 1 <= k < n
      ensures AnyInside(StepN(ms, cs, dt, sqrt, k), w, h)
    {
      InsideUntilStop(ms, cs, dt, sqrt, w, h, budget, k);
    }
    if n < budget {
      OutsideAtStop(ms, cs, dt, sqrt, w, h, budget);
    }
  }

  /** With no movable charges at all, the loop with the stop flag runs one step. */
  lemma NoChargesOneStep(cs: seq<StationaryCharge>, dt: real, sqrt: real -> real, w: real, h: real, budget: nat)
    requires IsSqrt(sqrt) && budget > 0
    ensures StepsWithStop([], cs, dt, sqrt, w, h, budget) == 1
  {
  }

  /** The bounds check over every movable charge, in order, stopping at the first inside. */
  method AnyChargeInside(ms: seq<MovableCharge>, w: real, h: real) returns (inside: bool)
    ensures inside <==> AnyInside(ms, w, h)
  {
    for i := 0 to |ms|
      invariant forall j :: 0 <= j < i ==> !InBounds(ms[j].x, ms[j].y, 0.0, w, 0.0, h)
    {
      if InBounds(ms[i].x, ms[i].y, 0.0, w, 0.0, h) {
        return true;
      }
    }
    return false;
  }

  /** One round of the loop with the stop flag, in terms of the step count still to come. */
  lemma StopLoopStep(start: seq<MovableCharge>, cs: seq<StationaryCharge>, dt: real, sqrt: real -> real,
                     w: real, h: real, maxSteps: nat, k: nat, total: nat)
    requires IsSqrt(sqrt) && Massive(start) && k < maxSteps
    requires total == k + StepsWithStop(StepN(start, cs, dt, sqrt, k), cs, dt, sqrt, w, h, maxSteps - k)
    ensures var next := StepN(start, cs, dt, sqrt, k + 1);
      next == StepAll(StepN(start, cs, dt, sqrt, k), cs, dt, sqrt) &&
      (AnyInside(next, w, h) ==> total == k + 1 + StepsWithStop(next, cs, dt, sqrt, w, h, maxSteps - (k + 1))) &&
      (!AnyInside(next, w, h) ==> total == k + 1)
  {
  }

  /**
   * The headless loop with the stop flag: update, then end as soon as no
   * charge is left inside the grid, for at most maxSteps updates.
   */
  method StepWhileInside(grid: CellGrid, maxSteps: nat, dt: real, sqrt: real -> real) returns (steps: nat)
    requires IsSqrt(sqrt) && Massive(grid.movableCharges) && grid.Valid()
    modifies grid`movableCharges
    ensures grid.Valid()
    ensures steps == StepsWithStop(old(grid.movableCharges), grid.stationaryCharges, dt, sqrt, grid.w as real, grid.h as real, maxSteps)
    ensures grid.movableCharges == StepN(old(grid.movableCharges), grid.stationaryCharges, dt, sqrt, steps)
  {
    ghost var start, cs := grid.movableCharges, grid.stationaryCharges;
    var (w, h) := grid.GetDimensions();
    var wf, hf := w as real, h as real;
    ghost var total := StepsWithStop(start, cs, dt, sqrt, wf, hf, maxSteps);
    var k := 0;
    while k < maxSteps
      invariant k <= maxSteps && grid.Valid()
      invariant grid.movableCharges == StepN(start, cs, dt, sqrt, k)
      invariant total == k + StepsWithStop(StepN(start, cs, dt, sqrt, k), cs, dt, sqrt, wf, hf, maxSteps - k)
    {
      StopLoopStep(start, cs, dt, sqrt, wf, hf, maxSteps, k, total);
      grid.UpdateMovableCharges(dt, sqrt);
      k := k + 1;
      var inside := AnyChargeInside(grid.movableCharges, wf, hf);
      if !inside {
        return k;
      }
    }
    return k;
  }

  /** The headless loop without the stop flag: exactly maxSteps updates. */
  method StepFixed(grid: CellGrid, maxSteps: nat, dt: real, sqrt: real -> real)
    requires IsSqrt(sqrt) && Massive(grid.movableCharges) && grid.Valid()
    modifies grid`movableCharges
    ensures grid.Valid()
    ensures grid.movableCharges == StepN(old(grid.movableCharges), grid.stationaryCharges, dt, sqrt, maxSteps)
  {
    ghost var start := grid.movableCharges;
    for k := 0 to maxSteps
      invariant grid.Valid()
      invariant grid.movableCharges == StepN(start, grid.stationaryCharges, dt, sqrt, k)
    {
      grid.UpdateMovableCharges(dt, sqrt);
    }
  }

  /**
   * The headless step loop: maxSteps updates, or with the stop flag as many
   * as StepsWithStop counts.  Returns the number of updates performed.
   */
  method SimulateHeadless(grid: CellGrid, maxSteps: nat, dt: real, stopWhenAllLeft: bool, sqrt: real -> real)
    returns (steps: nat)
    requires IsSqrt(sqrt) && Massive(grid.movableCharges) && grid.Valid()
    modifies grid`movableCharges
    ensures grid.Valid()
    ensures steps == if stopWhenAllLeft
      then StepsWithStop(old(grid.movableCharges), grid.stationaryCharges, dt, sqrt, grid.w as real, grid.h as real, maxSteps)
      else maxSteps
    ensures grid.movableCharges == StepN(old(grid.movableCharges), grid.stationaryCharges, dt, sqrt, steps)
  {
    if stopWhenAllLeft {
      steps := StepWhileInside(grid, maxSteps, dt, sqrt);
    } else {
      StepFixed(grid, maxSteps, dt, sqrt);
      steps := maxSteps;
    }
  }

  /** The command-line flags, with their defaults below. */
  datatype Args = Args(
    noGui: bool,            // do not open the display
    maxSteps: nat,          // the step budget of the headless loop
    deltaT: real,           // the time step of the headless loop
    stopWhenAllLeft: bool,  // end the headless loop once every charge has left the grid
    saveField: bool,        // write the sampled field to a file
    saveMovement: bool)     // record and write the charges' movement

  const DefaultArgs := Args(false, 10000, 0.000001, false, false, false)

  /** A movable charge as read from the movable-charge file. */
  datatype NewCharge = NewCharge(x: real, y: real, q: real, m: real, v: XY, a: XY)

  /** The movable charges the program starts with: all moving, none collided. */
  function Placed(incoming: seq<NewCharge>): (ms: seq<MovableCharge>)
    ensures |ms| == |incoming|
    ensures forall i :: 0 <= i < |ms| ==> ms[i].shouldMove && !ms[i].collided && ms[i].m == incoming[i].m
  {
    seq(|incoming|, i requires 0 <= i < |incoming| =>
      var n := incoming[i]; MovableCharge(true, false, n.x, n.y, n.q, n.m, n.v, n.a))
  }

  /** How a run of the program ends. */
  datatype Outcome =
    | NoSaveOption        // headless with neither save flag: nothing is simulated
    | FieldOnly           // headless, field saved, no movement to record
    | Simulated(steps: nat)
    | GuiRefused          // movement recording is refused with the display
    | GuiShown

  /**
   * How the run ended, with the grid's cells and movable charges at that
   * point (when the display takes over, as it receives them).
   */
  datatype Report = Report(outcome: Outcome, cells: seq<seq<Cell>>, movable: seq<MovableCharge>)

  /** Every movable charge from the file has a non-zero mass. */
  predicate Weighed(incoming: seq<NewCharge>)
  {
    forall i :: 0 <= i < |incoming| ==> incoming[i].m != 0.0
  }

  /** Charges placed from weighed records can all be moved. */
  lemma PlacedMassive(incoming: seq<NewCharge>)
    requires Weighed(incoming)
    ensures Massive(Placed(incoming))
  {
  }

  /** The cells after loading: the deposited charges, resampled when the field is needed. */
  function StartCells(populate: bool, cs: seq<StationaryCharge>, sqrt: real -> real): (cells: seq<seq<Cell>>)
    requires IsSqrt(sqrt) && OnGrid(EmptyGrid(FileGridSize, FileGridSize), cs)
    ensures |cells| == FileGridSize && forall y :: 0 <= y < |cells| ==> |cells[y]| == FileGridSize
  {
    var deposited := Deposit(EmptyGrid(FileGridSize, FileGridSize), cs);
    if populate then Populated(deposited, cs, sqrt) else deposited
  }

  /**
   * The start of the program: load the stationary charges, sample the field
   * when it is saved or displayed, and add the movable charges.
   */
  method Setup(args: Args, lines: seq<string>, incoming: seq<NewCharge>,
               parseIndex: string -> Option<nat>, parseReal: string -> Option<real>, sqrt: real -> real)
    returns (r: Result<CellGrid, LoadError>)
    requires IsSqrt(sqrt) && Weighed(incoming)
    ensures var loaded := LoadCharges(lines, FileGridSize, FileGridSize, parseIndex, parseReal);
      (r.Failure? <==> loaded.Failure?) &&
      (r.Failure? ==> r.error == loaded.error) &&
      (r.Success? ==>
        fresh(r.value) && r.value.Valid() &&
        r.value.w == FileGridSize && r.value.h == FileGridSize &&
        r.value.stationaryCharges == loaded.value &&
        OnGrid(EmptyGrid(FileGridSize, FileGridSize), loaded.value) &&
        r.value.cells == StartCells(args.saveField || !args.noGui, loaded.value, sqrt) &&
        r.value.movableCharges == Placed(incoming) && Massive(r.value.movableCharges))
  {
    var made := CellGrid.NewFromFile(lines, args.saveMovement, parseIndex, parseReal);
    if made.Failure? {
      return Failure(made.error);
    }
    var grid := made.value;
    ghost var charges := grid.stationaryCharges;
    if args.saveField || !args.noGui {
      grid.PopulateField(sqrt);
    }
    assert grid.cells == StartCells(args.saveField || !args.noGui, charges, sqrt);
    PlaceAll(grid, incoming);
    PlacedMassive(incoming);
    return Success(grid);
  }

  /** Adds the movable charges from the file, in order, to a grid that has none. */
  method PlaceAll(grid: CellGrid, incoming: seq<NewCharge>)
    requires grid.Valid() && grid.movableCharges == []
    modifies grid`movableCharges
    ensures grid.Valid()
    ensures grid.movableCharges == Placed(incoming)
  {
    for i := 0 to |incoming|
      invariant grid.Valid()
      invariant grid.movableCharges == Placed(incoming[..i])
    {
      var n := incoming[i];
      grid.AddMovableCharge(n.x, n.y, n.q, n.m, n.v, n.a);
      assert incoming[..i + 1] == incoming[..i] + [n];
    }
    assert incoming[..|incoming|] == incoming;
  }

  /**
   * The program: set up the grid, then either run the headless simulation,
   * stop with one of the messages for the other flag combinations, or hand
   * the grid to the display.
   */
  method RunProgram(args: Args, lines: seq<string>, incoming: seq<NewCharge>,
                    parseIndex: string -> Option<nat>, parseReal: string -> Option<real>, sqrt: real -> real)
    returns (r: Result<Report, LoadError>)
    requires IsSqrt(sqrt) && Weighed(incoming)
    ensures var loaded := LoadCharges(lines, FileGridSize, FileGridSize, parseIndex, parseReal);
      (r.Failure? <==> loaded.Failure?) &&
      (r.Failure? ==> r.error == loaded.error) &&
      (r.Success? ==>
        OnGrid(EmptyGrid(FileGridSize, FileGridSize), loaded.value) && Massive(Placed(incoming)) &&
        r.value.cells == StartCells(args.saveField || !args.noGui, loaded.value, sqrt) &&
        (r.value.outcome.Simulated? <==> args.noGui && args.saveMovement) &&
        (args.noGui && !args.saveMovement ==>
           r.value.outcome == if args.saveField then FieldOnly else NoSaveOption) &&
        (!args.noGui ==> r.value.outcome == if args.saveMovement then GuiRefused else GuiShown) &&
        (r.value.outcome.Simulated? ==>
           r.value.outcome.steps == (if args.stopWhenAllLeft
             then StepsWithStop(Placed(incoming), loaded.value, args.deltaT, sqrt,
                                FileGridSize as real, FileGridSize as real, args.maxSteps)
             else args.maxSteps) &&
           r.value.movable == StepN(Placed(incoming), loaded.value, args.deltaT, sqrt, r.value.outcome.steps)) &&
        (!r.value.outcome.Simulated? ==> r.value.movable == Placed(incoming)))
  {
    var made := Setup(args, lines, incoming, parseIndex, parseReal, sqrt);
    if made.Failure? {
      return Failure(made.error);
    }
    var grid := made.value;
    var outcome;
    if args.noGui {
      if !args.saveField && !args.saveMovement {
        outcome := NoSaveOption;
      } else if !args.saveMovement {
        outcome := FieldOnly;
      } else {
        var steps := SimulateHeadless(grid, args.maxSteps, args.deltaT, args.stopWhenAllLeft, sqrt);
        outcome := Simulated(steps);
      }
    } else if args.saveMovement {
      outcome := GuiRefused;
    } else {
      outcome := GuiShown;
    }
    return Success(Report(outcome, grid.cells, grid.movableCharges));
  }


  /** The sign of the charge a click would place. */
  datatype MouseCharge = Positive | Negative

  function Toggled(m: MouseCharge): (t: MouseCharge)
    ensures t != m
  {
    match m
    case Positive => Negative
    case Negative => Positive
  }

  /** The display loop's own state. */
  class Display {
    var stepsByFrame: int
    var deltaT: real
    var running: bool
    var mouseCharge: MouseCharge
    var timeElapsed: real

    /** 1000 steps of 1e-8 per frame, paused, positive mouse charge, no time elapsed. */
    constructor ()
      ensures stepsByFrame == 1000 && deltaT == 0.00000001 && !running
      ensures mouseCharge == Positive && timeElapsed == 0.0
    {
      stepsByFrame := 1000;
      deltaT := 0.00000001;
      running := false;
      mouseCharge := Positive;
      timeElapsed := 0.0;
    }

    /**
     * One frame: while running, stepsByFrame updates (none when it is not
     * positive) and deltaT * stepsByFrame added to the elapsed time; then
     * Space flips `running` and a left click flips the mouse charge.
     */
    method Frame(grid: CellGrid, spacePressed: bool, leftClicked: bool, sqrt: real -> real)
      requires IsSqrt(sqrt) && Massive(grid.movableCharges) && grid.Valid()
      modifies this, grid`movableCharges
      ensures grid.Valid()
      ensures old(running) ==>
        grid.movableCharges == StepN(old(grid.movableCharges), grid.stationaryCharges, deltaT, sqrt,
                                     if stepsByFrame < 0 then 0 else stepsByFrame) &&
        timeElapsed == old(timeElapsed) + deltaT * stepsByFrame as real
      ensures !old(running) ==> grid.movableCharges == old(grid.movableCharges) && timeElapsed == old(timeElapsed)
      ensures running == (old(running) != spacePressed)
      ensures mouseCharge == if leftClicked then Toggled(old(mouseCharge)) else old(mouseCharge)
      ensures stepsByFrame == old(stepsByFrame) && deltaT == old(deltaT)
    {
      if running {
        ghost var start := grid.movableCharges;
        var k := 0;
        while k < stepsByFrame
          invariant 0 <= k && (k <= stepsByFrame || k == 0)
          invariant Massive(grid.movableCharges)
          invariant grid.movableCharges == StepN(start, grid.stationaryCharges, deltaT, sqrt, k)
          invariant unchanged(this) && grid.Valid()
        {
          grid.UpdateMovableCharges(deltaT, sqrt);
          k := k + 1;
        }
        timeElapsed := timeElapsed + deltaT * stepsByFrame as real;
      }
      if spacePressed {
        running := !running;
      }
      if leftClicked {
        mouseCharge := Toggled(mouseCharge);
      }
    }
  }
}
