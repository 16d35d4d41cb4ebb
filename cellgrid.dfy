// The simulation grid: a w by h array of cells indexed cells[y][x], the
// stationary charges loaded from a file, and the movable charges the
// integrator advances step by step.

module Grid {
  import opened Helpers
  import opened Wrappers
  import opened Charges
  import opened MovableChargeField
  import opened CellGridField
  import opened CellGridParse

  /** One grid cell: the charge deposited on it, the sampled intensity and potential. */
  datatype Cell = Cell(q: real, ex: Num, ey: Num, v: Num)

  const EmptyCell := Cell(0.0, Finite(0.0), Finite(0.0), Finite(0.0))

  /** The side of the grid built from a charge file. */
  const FileGridSize: nat := 256

  /** h rows of w empty cells. */
  function EmptyGrid(w: nat, h: nat): (g: seq<seq<Cell>>)
    ensures |g| == h
    ensures forall y :: 0 <= y < h ==> |g[y]| == w && forall x :: 0 <= x < w ==> g[y][x] == EmptyCell
  {
    seq(h, _ => seq(w, _ => EmptyCell))
  }

  /** Every charge names a cell of `cells`. */
  predicate OnGrid(cells: seq<seq<Cell>>, cs: seq<StationaryCharge>)
  {
    forall i :: 0 <= i < |cs| ==> cs[i].y < |cells| && cs[i].x < |cells[cs[i].y]|
  }

  /** `cells` with the q of cell (c.x, c.y) set to c's charge. */
  function SetQ(cells: seq<seq<Cell>>, c: StationaryCharge): (r: seq<seq<Cell>>)
    requires c.y < |cells| && c.x < |cells[c.y]|
    ensures |r| == |cells| && forall y :: 0 <= y < |r| ==> |r[y]| == |cells[y]|
    ensures r[c.y][c.x].q == c.q
  {
    cells[c.y := cells[c.y][c.x := cells[c.y][c.x].(q := c.q)]]
  }

  /** Only the q of the named cell changes. */
  lemma SetQAt(cells: seq<seq<Cell>>, c: StationaryCharge, x: nat, y: nat)
    requires c.y < |cells| && c.x < |cells[c.y]|
    requires y < |cells| && x < |cells[y]|
    ensures SetQ(cells, c)[y][x] == if c.x == x && c.y == y then cells[y][x].(q := c.q) else cells[y][x]
  {
  }

  /** The grid after writing each charge's q into its cell, in order. */
  function Deposit(cells: seq<seq<Cell>>, cs: seq<StationaryCharge>): (r: seq<seq<Cell>>)
    requires OnGrid(cells, cs)
    ensures |r| == |cells| && forall y :: 0 <= y < |r| ==> |r[y]| == |cells[y]|
    ensures |cs| > 0 ==> r[cs[|cs| - 1].y][cs[|cs| - 1].x].q == cs[|cs| - 1].q
    decreases |cs|
  {
    if |cs| == 0 then cells
    else
      var n := |cs| - 1;
      var prev := Deposit(cells, cs[..n]);
      SetQ(prev, cs[n])
  }

  /** Depositing one more charge is one more write. */
  lemma DepositStep(cells: seq<seq<Cell>>, cs: seq<StationaryCharge>, c: StationaryCharge)
    requires OnGrid(cells, cs + [c])
    ensures OnGrid(cells, cs) && c.y < |cells| && c.x < |cells[c.y]|
    ensures Deposit(cells, cs + [c]) == SetQ(Deposit(cells, cs), c)
  {
    assert (cs + [c])[..|cs|] == cs;
    assert (cs + [c])[|cs|] == c;
    assert forall i :: 0 <= i < |cs| ==> (cs + [c])[i] == cs[i];
  }

  /** A cell that no charge names keeps its contents. */
  lemma {:induction false} DepositElsewhere(cells: seq<seq<Cell>>, cs: seq<StationaryCharge>, x: nat, y: nat)
    requires OnGrid(cells, cs)
    requires y < |cells| && x < |cells[y]|
    requires forall i :: 0 <= i < |cs| ==> cs[i].x != x || cs[i].y != y
    ensures Deposit(cells, cs)[y][x] == cells[y][x]
    decreases |cs|
  {
    if |cs| > 0 {
      var n := |cs| - 1;
      assert cs == cs[..n] + [cs[n]];
      DepositStep(cells, cs[..n], cs[n]);
      SetQAt(Deposit(cells, cs[..n]), cs[n], x, y);
      assert forall i :: 0 <= i < n ==> cs[..n][i] == cs[i];
      DepositElsewhere(cells, cs[..n], x, y);
    }
  }

  /** Depositing changes only the q of any cell. */
  lemma {:induction false} DepositOnlyQ(cells: seq<seq<Cell>>, cs: seq<StationaryCharge>, x: nat, y: nat)
    requires OnGrid(cells, cs)
    requires y < |cells| && x < |cells[y]|
    ensures Deposit(cells, cs)[y][x] == cells[y][x].(q := Deposit(cells, cs)[y][x].q)
    decreases |cs|
  {
    if |cs| > 0 {
      var n := |cs| - 1;
      assert cs == cs[..n] + [cs[n]];
      DepositStep(cells, cs[..n], cs[n]);
      SetQAt(Deposit(cells, cs[..n]), cs[n], x, y);
      DepositOnlyQ(cells, cs[..n], x, y);
    }
  }

  /**
   * A cell named by charge k and by no later charge holds exactly k's q,
   * with its other contents unchanged: a later line overwrites an earlier one.
   */
  lemma {:induction false} DepositLastWins(cells: seq<seq<Cell>>, cs: seq<StationaryCharge>, k: nat)
    requires OnGrid(cells, cs)
    requires k < |cs|
    requires forall j :: k < j < |cs| ==> cs[j].x != cs[k].x || cs[j].y != cs[k].y
    ensures var x, y := cs[k].x, cs[k].y; Deposit(cells, cs)[y][x] == cells[y][x].(q := cs[k].q)
    decreases |cs|
  {
    var n := |cs| - 1;
    var x, y := cs[k].x, cs[k].y;
    assert cs == cs[..n] + [cs[n]];
    DepositStep(cells, cs[..n], cs[n]);
    SetQAt(Deposit(cells, cs[..n]), cs[n], x, y);
    if k < n {
      assert forall j :: k < j < n ==> cs[..n][j] == cs[j];
      DepositLastWins(cells, cs[..n], k);
    } else {
      DepositOnlyQ(cells, cs[..n], x, y);
    }
  }

  /** Cell (x, y) with its intensity and potential replaced by the sampler's values. */
  function Resampled(cell: Cell, x: nat, y: nat, cs: seq<StationaryCharge>, sqrt: real -> real): (r: Cell)
    requires IsSqrt(sqrt)
    ensures r.q == cell.q
    ensures r.v == Infinity <==> OnCharge(x, y, cs)
    ensures r.ex == Infinity <==> OnCharge(x, y, cs)
  {
    var d := FieldPotentialAt(x, y, cs, sqrt);
    cell.(ex := d.ex, ey := d.ey, v := d.potential)
  }

  /** Every cell resampled at its own coordinates. */
  function Populated(cells: seq<seq<Cell>>, cs: seq<StationaryCharge>, sqrt: real -> real): (p: seq<seq<Cell>>)
    requires IsSqrt(sqrt)
    ensures |p| == |cells| && forall y :: 0 <= y < |p| ==> |p[y]| == |cells[y]|
  {
    seq(|cells|, y requires 0 <= y < |cells| =>
      seq(|cells[y]|, x requires 0 <= x < |cells[y]| => Resampled(cells[y][x], x, y, cs, sqrt)))
  }

  /**
   * Populating keeps the shape and every q, gives each cell the sampler's
   * values at its (x, y), and puts the sentinel exactly on charge cells; a
   * cell is written nowhere else.
   */
  lemma PopulatedCells(cells: seq<seq<Cell>>, cs: seq<StationaryCharge>, sqrt: real -> real)
    requires IsSqrt(sqrt)
    ensures var p := Populated(cells, cs, sqrt);
      |p| == |cells| &&
      (forall y :: 0 <= y < |p| ==> |p[y]| == |cells[y]|) &&
      (forall y, x :: 0 <= y < |p| && 0 <= x < |p[y]| ==>
         var d := FieldPotentialAt(x, y, cs, sqrt);
         p[y][x].q == cells[y][x].q && p[y][x].ex == d.ex && p[y][x].ey == d.ey && p[y][x].v == d.potential &&
         (p[y][x].v == Infinity <==> OnCharge(x, y, cs)))
  {
  }

  /** Populating a populated grid changes nothing. */
  lemma PopulateTwice(cells: seq<seq<Cell>>, cs: seq<StationaryCharge>, sqrt: real -> real)
    requires IsSqrt(sqrt)
    ensures Populated(Populated(cells, cs, sqrt), cs, sqrt) == Populated(cells, cs, sqrt)
  {
    var p := Populated(cells, cs, sqrt);
    var pp := Populated(p, cs, sqrt);
    forall y | 0 <= y < |p|
      ensures pp[y] == p[y]
    {
      assert |pp[y]| == |p[y]|;
    }
  }

  /** The charges that can still move divide by a non-zero mass. */
  predicate Massive(ms: seq<MovableCharge>)
  {
    forall i :: 0 <= i < |ms| ==> ms[i].shouldMove ==> ms[i].m != 0.0
  }

  /**
   * One step of uniformly accelerated motion: position with the old velocity
   * and acceleration, velocity with the old acceleration, and the new
   * acceleration from the field `e` at the position before the step.
   */
  function Kinematic(c: MovableCharge, e: XY, dt: real): (r: MovableCharge)
    requires c.m != 0.0
    ensures r.shouldMove == c.shouldMove && r.collided == c.collided
    ensures r.q == c.q && r.m == c.m
    ensures dt == 0.0 ==> r.x == c.x && r.y == c.y && r.v == c.v
  {
    c.(x := c.x + (c.v.x * dt + 0.5 * c.a.x * (dt * dt)),
       y := c.y + (c.v.y * dt + 0.5 * c.a.y * (dt * dt)),
       v := XY(c.v.x + c.a.x * dt, c.v.y + c.a.y * dt),
       a := XY(e.x * c.q / c.m, e.y * c.q / c.m))
  }

  /** What one update does to one charge. */
  function Advance(c: MovableCharge, cs: seq<StationaryCharge>, dt: real, sqrt: real -> real): (r: MovableCharge)
    requires IsSqrt(sqrt)
    requires c.shouldMove ==> c.m != 0.0
    ensures r.q == c.q && r.m == c.m
    ensures r.shouldMove ==> c.shouldMove
    ensures c.collided ==> r.collided
    ensures r.collided && !c.collided ==> !r.shouldMove && r.x == c.x && r.y == c.y
  {
    if !c.shouldMove then c
    else match FieldAt(c.x, c.y, cs, sqrt)
      case None => c.(collided := true, shouldMove := false)
      case Some(e) => Kinematic(c, e, dt)
  }

  /** One update of every movable charge. */
  function StepAll(ms: seq<MovableCharge>, cs: seq<StationaryCharge>, dt: real, sqrt: real -> real): (r: seq<MovableCharge>)
    requires IsSqrt(sqrt) && Massive(ms)
    ensures |r| == |ms| && Massive(r)
    ensures forall i :: 0 <= i < |ms| ==> r[i].q == ms[i].q && r[i].m == ms[i].m
  {
    seq(|ms|, i requires 0 <= i < |ms| => Advance(ms[i], cs, dt, sqrt))
  }

  /** n updates in a row. */
  function StepN(ms: seq<MovableCharge>, cs: seq<StationaryCharge>, dt: real, sqrt: real -> real, n: nat): (r: seq<MovableCharge>)
    requires IsSqrt(sqrt) && Massive(ms)
    ensures |r| == |ms| && Massive(r)
  {
    if n == 0 then ms else StepAll(StepN(ms, cs, dt, sqrt, n - 1), cs, dt, sqrt)
  }

  /** Charge i after n steps is charge i after n - 1 steps, advanced once. */
  lemma StepNAt(ms: seq<MovableCharge>, cs: seq<StationaryCharge>, dt: real, sqrt: real -> real, n: nat, i: nat)
    requires IsSqrt(sqrt) && Massive(ms)
    requires n > 0 && i < |ms|
    ensures var p := StepN(ms, cs, dt, sqrt, n - 1)[i];
      (p.shouldMove ==> p.m != 0.0) && StepN(ms, cs, dt, sqrt, n)[i] == Advance(p, cs, dt, sqrt)
  {
  }

  /** A frozen charge is left exactly as it is. */
  lemma AdvanceFrozen(c: MovableCharge, cs: seq<StationaryCharge>, dt: real, sqrt: real -> real)
    requires IsSqrt(sqrt)
    requires !c.shouldMove
    ensures Advance(c, cs, dt, sqrt) == c
  {
  }

  /** A moving charge within distance 2 of a stationary charge freezes in place. */
  lemma AdvanceCollides(c: MovableCharge, cs: seq<StationaryCharge>, dt: real, sqrt: real -> real)
    requires IsSqrt(sqrt)
    requires c.shouldMove && c.m != 0.0
    requires Colliding(c.x, c.y, cs)
    ensures Advance(c, cs, dt, sqrt) == c.(collided := true, shouldMove := false)
  {
  }

  /**
   * A moving charge clear of every stationary charge moves with its pre-step
   * v and a, and takes as new a the particle field at its pre-step position
   * times q / m.
   */
  lemma AdvanceMoves(c: MovableCharge, cs: seq<StationaryCharge>, dt: real, sqrt: real -> real)
    requires IsSqrt(sqrt)
    requires c.shouldMove && c.m != 0.0
    requires !Colliding(c.x, c.y, cs)
    ensures Advance(c, cs, dt, sqrt) == Kinematic(c, FieldSum(c.x, c.y, cs, sqrt), dt)
  {
  }

  /**
   * The update of one moving charge: position by the constant-acceleration
   * formula with the old velocity and acceleration, velocity by the old
   * acceleration, and the new acceleration from the field as q E / m.
   */
  lemma KinematicStep(c: MovableCharge, e: XY, dt: real)
    requires c.m != 0.0
    ensures var n := Kinematic(c, e, dt);
      n.shouldMove == c.shouldMove && n.collided == c.collided && n.q == c.q && n.m == c.m &&
      n.x == c.x + (c.v.x * dt + 0.5 * c.a.x * (dt * dt)) &&
      n.y == c.y + (c.v.y * dt + 0.5 * c.a.y * (dt * dt)) &&
      n.v == XY(c.v.x + c.a.x * dt, c.v.y + c.a.y * dt) &&
      n.a == XY(e.x * c.q / c.m, e.y * c.q / c.m)
  {
  }

  /** A charge frozen now stays the same charge for any number of further steps. */
  lemma {:induction false} FrozenStaysPut(ms: seq<MovableCharge>, cs: seq<StationaryCharge>, dt: real, sqrt: real -> real, n: nat, i: nat)
    requires IsSqrt(sqrt) && Massive(ms)
    requires i < |ms| && !ms[i].shouldMove
    ensures StepN(ms, cs, dt, sqrt, n)[i] == ms[i]
  {
    if n > 0 {
      FrozenStaysPut(ms, cs, dt, sqrt, n - 1, i);
    }
  }

  /** Stepping k and then n times is stepping k + n times. */
  lemma {:induction false} StepNAdd(ms: seq<MovableCharge>, cs: seq<StationaryCharge>, dt: real, sqrt: real -> real, k: nat, n: nat)
    requires IsSqrt(sqrt) && Massive(ms)
    ensures StepN(StepN(ms, cs, dt, sqrt, k), cs, dt, sqrt, n) == StepN(ms, cs, dt, sqrt, k + n)
  {
    if n > 0 {
      StepNAdd(ms, cs, dt, sqrt, k, n - 1);
    }
  }

  /** Once a charge has frozen at step k it is never updated again. */
  lemma FreezeIsFinal(ms: seq<MovableCharge>, cs: seq<StationaryCharge>, dt: real, sqrt: real -> real, k: nat, n: nat, i: nat)
    requires IsSqrt(sqrt) && Massive(ms)
    requires i < |ms| && !StepN(ms, cs, dt, sqrt, k)[i].shouldMove
    requires k <= n
    ensures StepN(ms, cs, dt, sqrt, n)[i] == StepN(ms, cs, dt, sqrt, k)[i]
  {
    StepNAdd(ms, cs, dt, sqrt, k, n - k);
    FrozenStaysPut(StepN(ms, cs, dt, sqrt, k), cs, dt, sqrt, n - k, i);
  }

  /**
   * Every step keeps the number and the order of the charges (each keeps its
   * q and m), never unfreezes a charge, and never clears `collided`.
   */
  lemma {:induction false} StepNKeepsIdentity(ms: seq<MovableCharge>, cs: seq<StationaryCharge>, dt: real, sqrt: real -> real, n: nat)
    requires IsSqrt(sqrt) && Massive(ms)
    ensures var r := StepN(ms, cs, dt, sqrt, n);
      |r| == |ms| &&
      forall i :: 0 <= i < |ms| ==>
        r[i].q == ms[i].q && r[i].m == ms[i].m &&
        (r[i].shouldMove ==> ms[i].shouldMove) &&
        (ms[i].collided ==> r[i].collided)
  {
    if n > 0 {
      StepNKeepsIdentity(ms, cs, dt, sqrt, n - 1);
    }
  }

  /** With no stationary charges and no acceleration, one step moves by v * dt and keeps v and a. */
  lemma AdvanceFree(c: MovableCharge, dt: real, sqrt: real -> real)
    requires IsSqrt(sqrt)
    requires c.shouldMove && c.m != 0.0 && c.a == XY(0.0, 0.0)
    ensures Advance(c, [], dt, sqrt) == c.(x := c.x + c.v.x * dt, y := c.y + c.v.y * dt)
  {
    FieldAtEmpty(c.x, c.y, sqrt);
    assert Advance(c, [], dt, sqrt) == Kinematic(c, XY(0.0, 0.0), dt);
    var zero := 0.0 * c.q;
    assert zero / c.m == 0.0;
    assert 0.5 * c.a.x * (dt * dt) == 0.0 && 0.5 * c.a.y * (dt * dt) == 0.0;
  }

  /** Charge c moved n times by its own v * dt. */
  function Drift(c: MovableCharge, n: nat, dt: real): MovableCharge
  {
    c.(x := c.x + n as real * (c.v.x * dt), y := c.y + n as real * (c.v.y * dt))
  }

  lemma DriftStep(c: MovableCharge, n: nat, dt: real)
    requires n > 0
    ensures var p := Drift(c, n - 1, dt); p.(x := p.x + p.v.x * dt, y := p.y + p.v.y * dt) == Drift(c, n, dt)
  {
    var dx, dy := c.v.x * dt, c.v.y * dt;
    var k := (n - 1) as real;
    var p := Drift(c, n - 1, dt);
    assert p.v == c.v && p.x == c.x + k * dx && p.y == c.y + k * dy;
    assert k * dx + dx == n as real * dx;
    assert k * dy + dy == n as real * dy;
  }

  /** One more free step extends the drift by one. */
  lemma DriftAdvance(c: MovableCharge, n: nat, dt: real, sqrt: real -> real)
    requires IsSqrt(sqrt)
    requires n > 0 && c.shouldMove && c.m != 0.0 && c.a == XY(0.0, 0.0)
    ensures Advance(Drift(c, n - 1, dt), [], dt, sqrt) == Drift(c, n, dt)
  {
    var p := Drift(c, n - 1, dt);
    assert p.shouldMove && p.m != 0.0 && p.a == XY(0.0, 0.0);
    AdvanceFree(p, dt, sqrt);
    DriftStep(c, n, dt);
    var q := p.(x := p.x + p.v.x * dt, y := p.y + p.v.y * dt);
    assert Advance(p, [], dt, sqrt) == q;
    assert q == Drift(c, n, dt);
  }

  /**
   * With no stationary charges, a moving charge with zero acceleration moves
   * in a straight line: after n steps it is n * v * dt further on.
   */
  lemma {:induction false} FreeFlight(ms: seq<MovableCharge>, dt: real, sqrt: real -> real, n: nat, i: nat)
    requires IsSqrt(sqrt) && Massive(ms)
    requires i < |ms| && ms[i].shouldMove && ms[i].a == XY(0.0, 0.0)
    ensures StepN(ms, [], dt, sqrt, n)[i] == Drift(ms[i], n, dt)
  {
    if n > 0 {
      FreeFlight(ms, dt, sqrt, n - 1, i);
      StepNAt(ms, [], dt, sqrt, n, i);
      DriftAdvance(ms[i], n, dt, sqrt);
    } else {
      var c := ms[i];
      assert 0 as real * (c.v.x * dt) == 0.0 && 0 as real * (c.v.y * dt) == 0.0;
    }
  }

  /** One more clean line: the loaded charges grow by its charge and the grid by its write. */
  lemma LoadNextCell(lines: seq<string>, i: nat, empty: seq<seq<Cell>>, cs: seq<StationaryCharge>,
                     parseIndex: string -> Option<nat>, parseReal: string -> Option<real>)
    requires i < |lines| && empty == EmptyGrid(FileGridSize, FileGridSize)
    requires LoadCharges(lines[..i], FileGridSize, FileGridSize, parseIndex, parseReal) == Success(cs)
    requires OnGrid(empty, cs)
    requires LoadLine(lines[i], i, FileGridSize, FileGridSize, parseIndex, parseReal).Success?
    ensures var c := LoadLine(lines[i], i, FileGridSize, FileGridSize, parseIndex, parseReal).value;
      LoadCharges(lines[..i + 1], FileGridSize, FileGridSize, parseIndex, parseReal) == Success(cs + [c]) &&
      OnGrid(empty, cs + [c]) &&
      c.y < |Deposit(empty, cs)| && c.x < |Deposit(empty, cs)[c.y]| &&
      Deposit(empty, cs + [c]) == SetQ(Deposit(empty, cs), c)
  {
    var c := LoadLine(lines[i], i, FileGridSize, FileGridSize, parseIndex, parseReal).value;
    LoadNext(lines, i, FileGridSize, FileGridSize, parseIndex, parseReal);
    assert forall j :: 0 <= j < |cs| ==> (cs + [c])[j] == cs[j];
    DepositStep(empty, cs, c);
  }

  /** The simulation grid. */
  class CellGrid {
    const w: nat
    const h: nat
    var cells: seq<seq<Cell>>
    var stationaryCharges: seq<StationaryCharge>
    var movableCharges: seq<MovableCharge>
    var trackMovement: bool

    /** h rows of w cells each. */
    ghost predicate Valid()
      reads this
    {
      |cells| == h && forall y :: 0 <= y < h ==> |cells[y]| == w
    }

    /** An x by y grid of empty cells with no charges. */
    constructor (x: nat, y: nat, saveMovement: bool)
      ensures Valid()
      ensures w == x && h == y && cells == EmptyGrid(x, y)
      ensures stationaryCharges == [] && movableCharges == [] && trackMovement == saveMovement
    {
      w, h := x, y;
      cells := EmptyGrid(x, y);
      stationaryCharges := [];
      movableCharges := [];
      trackMovement := saveMovement;
    }

    /** The width and the height, in that order. */
    function GetDimensions(): (d: (nat, nat))
      reads this
      requires Valid()
      ensures d.1 == |cells| && forall y :: 0 <= y < |cells| ==> d.0 == |cells[y]|
      ensures d == (w, h)
    {
      (w, h)
    }

    /** Whether movement is being recorded. */
    function IsTrackingMovement(): (b: bool)
      reads this
      ensures b == trackMovement
    {
      trackMovement
    }

    /**
     * The grid described by a charge file given as its lines: a 256 by 256
     * grid holding the loaded charges in file order, each q deposited in its
     * cell, or the first line's error.
     */
    static method NewFromFile(lines: seq<string>, saveMovement: bool,
                              parseIndex: string -> Option<nat>, parseReal: string -> Option<real>)
      returns (r: Result<CellGrid, LoadError>)
      ensures var loaded := LoadCharges(lines, FileGridSize, FileGridSize, parseIndex, parseReal);
        (r.Failure? <==> loaded.Failure?) &&
        (r.Failure? ==> r.error == loaded.error) &&
        (r.Success? ==>
           fresh(r.value) && r.value.Valid() &&
           r.value.w == FileGridSize && r.value.h == FileGridSize &&
           r.value.stationaryCharges == loaded.value &&
           OnGrid(EmptyGrid(FileGridSize, FileGridSize), r.value.stationaryCharges) &&
           r.value.cells == Deposit(EmptyGrid(FileGridSize, FileGridSize), r.value.stationaryCharges) &&
           r.value.movableCharges == [] && r.value.trackMovement == saveMovement)
    {
      var grid := new CellGrid(FileGridSize, FileGridSize, saveMovement);
      ghost var empty := grid.cells;
      // The cells and the charge list are built beside the grid and stored in
      // it once every line is read; a failing line returns before that.
      var cells := grid.cells;
      var charges := [];
      var i := 0;
      while i < |lines|
        invariant 0 <= i <= |lines|
        invariant LoadCharges(lines[..i], FileGridSize, FileGridSize, parseIndex, parseReal) == Success(charges)
        invariant OnGrid(empty, charges)
        invariant cells == Deposit(empty, charges)
        invariant grid.cells == empty && grid.stationaryCharges == []
        invariant grid.movableCharges == [] && grid.trackMovement == saveMovement
      {
        var line := LoadLine(lines[i], i, FileGridSize, FileGridSize, parseIndex, parseReal);
        if line.Failure? {
          FailsAt(lines, i, FileGridSize, FileGridSize, parseIndex, parseReal);
          return Failure(line.error);
        }
        var c := line.value;
        LoadNextCell(lines, i, empty, charges, parseIndex, parseReal);
        cells := SetQ(cells, c);
        charges := charges + [c];
        i := i + 1;
      }
      assert lines[..i] == lines;
      grid.cells, grid.stationaryCharges := cells, charges;
      return Success(grid);
    }

    /** Samples every cell's intensity and potential from the stationary charges. */
    method PopulateField(sqrt: real -> real)
      requires IsSqrt(sqrt) && Valid()
      modifies this`cells
      ensures Valid()
      ensures cells == Populated(old(cells), stationaryCharges, sqrt)
    {
      ghost var before := cells;
      var y := 0;
      while y < |cells|
        invariant 0 <= y <= |cells| == |before|
        invariant forall j :: 0 <= j < y ==> cells[j] == Populated(before, stationaryCharges, sqrt)[j]
        invariant forall j :: y <= j < |cells| ==> cells[j] == before[j]
      {
        var x := 0;
        while x < |cells[y]|
          invariant |cells| == |before| && y < |cells|
          invariant 0 <= x <= |cells[y]| == |before[y]|
          invariant forall j :: 0 <= j < y ==> cells[j] == Populated(before, stationaryCharges, sqrt)[j]
          invariant forall j :: y < j < |cells| ==> cells[j] == before[j]
          invariant forall i :: 0 <= i < x ==> cells[y][i] == Resampled(before[y][i], i, y, stationaryCharges, sqrt)
          invariant forall i :: x <= i < |cells[y]| ==> cells[y][i] == before[y][i]
        {
          var d := FieldIntensityPotential(stationaryCharges, x, y, sqrt);
          var cell := cells[y][x];
          cell := cell.(ex := d.ex, ey := d.ey, v := d.potential);
          cells := cells[y := cells[y][x := cell]];
          x := x + 1;
        }
        assert cells[y] == Populated(before, stationaryCharges, sqrt)[y];
        y := y + 1;
      }
      PopulatedCells(before, stationaryCharges, sqrt);
    }

    /** Appends a new moving, not yet collided charge at the end of the list. */
    method AddMovableCharge(x: real, y: real, q: real, m: real, v: XY, a: XY)
      requires Valid()
      modifies this`movableCharges
      ensures Valid()
      ensures movableCharges == old(movableCharges) + [MovableCharge(true, false, x, y, q, m, v, a)]
    {
      movableCharges := movableCharges + [MovableCharge(true, false, x, y, q, m, v, a)];
    }

    /** Turns movement recording on or off. */
    method SetMovementTracking(b: bool)
      requires Valid()
      modifies this`trackMovement
      ensures Valid()
      ensures trackMovement == b
    {
      trackMovement := b;
    }

    /** Advances every charge that should move by one time step dt, in place. */
    method UpdateMovableCharges(dt: real, sqrt: real -> real)
      requires IsSqrt(sqrt) && Massive(movableCharges) && Valid()
      modifies this`movableCharges
      ensures Valid()
      ensures movableCharges == StepAll(old(movableCharges), stationaryCharges, dt, sqrt)
    {
      ghost var before := movableCharges;
      var i := 0;
      while i < |movableCharges|
        invariant 0 <= i <= |movableCharges| == |before|
        invariant forall j :: 0 <= j < i ==> movableCharges[j] == Advance(before[j], stationaryCharges, dt, sqrt)
        invariant forall j :: i <= j < |movableCharges| ==> movableCharges[j] == before[j]
      {
        var c := movableCharges[i];
        ghost var c0 := c;
        if c.shouldMove {
          var intensity := FieldIntensityMovable(c.x, c.y, stationaryCharges, sqrt);
          assert intensity == FieldAt(c0.x, c0.y, stationaryCharges, sqrt);
          if intensity.None? {
            c := c.(collided := true, shouldMove := false);
          } else {
            c := Kinematic(c, intensity.value, dt);
          }
          assert c == Advance(c0, stationaryCharges, dt, sqrt);
          movableCharges := movableCharges[i := c];
        }
        i := i + 1;
      }
    }
  }
}
