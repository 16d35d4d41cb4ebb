// The two kinds of point charge the simulator works with.  They live in a
// module of their own because the grid and the particle field lookup each
// use both.

module Charges {
  import opened Helpers

  /** A fixed charge `q` at integer grid coordinates (x, y). */
  datatype StationaryCharge = StationaryCharge(x: nat, y: nat, q: real)

  /**
   * A particle: continuous position, charge, mass, velocity and acceleration,
   * with the freeze flag `shouldMove` and the sticky diagnostic `collided`.
   */
  datatype MovableCharge = MovableCharge(
    shouldMove: bool,
    collided: bool,
    x: real,
    y: real,
    q: real,
    m: real,
    v: XY,
    a: XY)

  /** Every stationary charge with its sign flipped, in the same places and order. */
  function Negated(cs: seq<StationaryCharge>): (ns: seq<StationaryCharge>)
    ensures |ns| == |cs|
    ensures forall i :: 0 <= i < |cs| ==> ns[i] == cs[i].(q := -cs[i].q)
  {
    seq(|cs|, i requires 0 <= i < |cs| => cs[i].(q := -cs[i].q))
  }
}
