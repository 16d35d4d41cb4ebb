// The per-cell sampler of the grid: field intensity and potential of the
// stationary charges at an integer grid point, with an infinite sentinel on
// the charges themselves.  Its law is q * d / r^2 for the intensity and
// q / r for the potential, without Coulomb's constant: it differs from the
// particle lookup in MovableChargeField and is kept as written.

module CellGridField {
  import opened Helpers
  import opened Charges
  import opened MovableChargeField

  /** The squared distance between integer grid points, computed exactly. */
  function IntSqDist(x: int, y: int, c: StationaryCharge): (s: int)
    ensures 0 <= s
    ensures s == 0 <==> x == c.x && y == c.y
  {
    var dx, dy := x - c.x, y - c.y;
    var dxx, dyy := dx * dx, dy * dy;
    assert 0 <= dxx && 0 <= dyy;
    assert dxx == 0 <==> dx == 0;
    assert dyy == 0 <==> dy == 0;
    dxx + dyy
  }

  /** Some stationary charge sits exactly on the grid point (x, y). */
  predicate OnCharge(x: int, y: int, cs: seq<StationaryCharge>)
    ensures OnCharge(x, y, cs) ==> |cs| > 0
  {
    exists i :: 0 <= i < |cs| && cs[i].x == x && cs[i].y == y
  }

  /** Running sums of the sampler: intensity components and potential. */
  datatype Sums = Sums(ex: real, ey: real, v: real)

  /** One charge's term at a point off that charge: q * d / r^2 and q / r. */
  function Term(x: int, y: int, c: StationaryCharge, sqrt: real -> real): (t: Sums)
    requires IsSqrt(sqrt)
    requires x != c.x || y != c.y
    ensures c.q == 0.0 ==> t == Sums(0.0, 0.0, 0.0)
    ensures 0.0 < c.q ==> 0.0 < t.v
    ensures c.q < 0.0 ==> t.v < 0.0
  {
    var rSq := IntSqDist(x, y, c) as real;
    var r := Root(sqrt, rSq);
    SqrtZero(sqrt, rSq);
    PositiveQuotient(c.q, r);
    Sums(c.q * (x - c.x) as real / rSq, c.q * (y - c.y) as real / rSq, c.q / r)
  }

  /** The summed terms of all charges, in list order, at a point off every charge. */
  function Accumulate(x: int, y: int, cs: seq<StationaryCharge>, sqrt: real -> real): Sums
    requires IsSqrt(sqrt)
    requires !OnCharge(x, y, cs)
    decreases |cs|
  {
    if |cs| == 0 then Sums(0.0, 0.0, 0.0)
    else
      var n := |cs| - 1;
      var s := Accumulate(x, y, cs[..n], sqrt);
      var t := Term(x, y, cs[n], sqrt);
      Sums(s.ex + t.ex, s.ey + t.ey, s.v + t.v)
  }

  /** Dividing by a positive number keeps the sign of the numerator. */
  lemma PositiveQuotient(q: real, r: real)
    requires 0.0 < r
    ensures q == 0.0 ==> q / r == 0.0
    ensures 0.0 < q ==> 0.0 < q / r
    ensures q < 0.0 ==> q / r < 0.0
  {
  }

  /** One more charge off the point extends the sums by its term. */
  lemma AccumulateStep(x: int, y: int, cs: seq<StationaryCharge>, i: nat, sqrt: real -> real)
    requires IsSqrt(sqrt)
    requires i < |cs| && !OnCharge(x, y, cs[..i])
    requires Root(sqrt, IntSqDist(x, y, cs[i]) as real) != 0.0
    ensures x != cs[i].x || y != cs[i].y
    ensures !OnCharge(x, y, cs[..i + 1])
    ensures var s, t := Accumulate(x, y, cs[..i], sqrt), Term(x, y, cs[i], sqrt);
      Accumulate(x, y, cs[..i + 1], sqrt) == Sums(s.ex + t.ex, s.ey + t.ey, s.v + t.v)
  {
    SqrtZero(sqrt, IntSqDist(x, y, cs[i]) as real);
    var done := cs[..i + 1];
    assert done[..i] == cs[..i] && done[i] == cs[i];
  }

  /** The term written with the loop's own differences dx, dy. */
  lemma TermValue(x: int, y: int, c: StationaryCharge, dx: int, dy: int, sqrt: real -> real)
    requires IsSqrt(sqrt)
    requires dx == x - c.x && dy == y - c.y
    ensures IntSqDist(x, y, c) == dx * dx + dy * dy
    ensures Root(sqrt, (dx * dx + dy * dy) as real) == 0.0 <==> x == c.x && y == c.y
    ensures x != c.x || y != c.y ==>
      var rSq := (dx * dx + dy * dy) as real;
      Term(x, y, c, sqrt) == Sums(c.q * dx as real / rSq, c.q * dy as real / rSq, c.q / Root(sqrt, rSq))
  {
    SqrtZero(sqrt, IntSqDist(x, y, c) as real);
  }

  /** A cell's sample: intensity components and potential, possibly infinite. */
  datatype CellData = CellData(ex: Num, ey: Num, potential: Num)

  /** All three components infinite on a charge, the finite sums everywhere else. */
  function FieldPotentialAt(x: int, y: int, cs: seq<StationaryCharge>, sqrt: real -> real): (d: CellData)
    requires IsSqrt(sqrt)
    ensures d.ex.Infinity? <==> d.potential.Infinity?
    ensures d.ey.Infinity? <==> d.potential.Infinity?
    ensures d.potential.Infinity? <==> OnCharge(x, y, cs)
  {
    if OnCharge(x, y, cs) then CellData(Infinity, Infinity, Infinity)
    else
      var s := Accumulate(x, y, cs, sqrt);
      CellData(Finite(s.ex), Finite(s.ey), Finite(s.v))
  }

  /**
   * The sampling loop: it returns the all-infinite sentinel at the first
   * charge whose distance is zero and otherwise accumulates every term.
   */
  method FieldIntensityPotential(stationaryCharges: seq<StationaryCharge>, x: nat, y: nat, sqrt: real -> real)
    returns (d: CellData)
    requires IsSqrt(sqrt)
    ensures OnCharge(x, y, stationaryCharges) ==> d == CellData(Infinity, Infinity, Infinity)
    ensures !OnCharge(x, y, stationaryCharges) ==>
      var s := Accumulate(x, y, stationaryCharges, sqrt);
      d == CellData(Finite(s.ex), Finite(s.ey), Finite(s.v))
  {
    var ex, ey, potential := 0.0, 0.0, 0.0;
    var i := 0;
    while i < |stationaryCharges|
      invariant 0 <= i <= |stationaryCharges|
      invariant !OnCharge(x, y, stationaryCharges[..i])
      invariant Sums(ex, ey, potential) == Accumulate(x, y, stationaryCharges[..i], sqrt)
    {
      var c := stationaryCharges[i];
      var dx, dy := x as int - c.x as int, y as int - c.y as int;
      var rSq := (dx * dx + dy * dy) as real;
      var r := Root(sqrt, rSq);
      TermValue(x, y, c, dx, dy, sqrt);
      if r == 0.0 {
        return CellData(Infinity, Infinity, Infinity);
      }
      AccumulateStep(x, y, stationaryCharges, i, sqrt);
      ex := ex + c.q * dx as real / rSq;
      ey := ey + c.q * dy as real / rSq;
      potential := potential + c.q / r;
      i := i + 1;
    }
    assert stationaryCharges[..i] == stationaryCharges;
    d := CellData(Finite(ex), Finite(ey), Finite(potential));
  }

  /** With no stationary charges every sample is zero. */
  lemma FieldPotentialEmpty(x: int, y: int, sqrt: real -> real)
    requires IsSqrt(sqrt)
    ensures FieldPotentialAt(x, y, [], sqrt) == CellData(Finite(0.0), Finite(0.0), Finite(0.0))
  {
  }

  lemma DivLess(q: real, a: real, b: real)
    requires 0.0 < q && 0.0 < a < b
    ensures q / b < q / a
  {
  }

  /**
   * Around a single positive charge the potential falls strictly with the
   * distance from it, and the charge's own cell holds the sentinel.
   */
  lemma PotentialFallsWithDistance(c: StationaryCharge, x1: int, y1: int, x2: int, y2: int, sqrt: real -> real)
    requires IsSqrt(sqrt)
    requires 0.0 < c.q
    requires 0 < IntSqDist(x1, y1, c) < IntSqDist(x2, y2, c)
    ensures FieldPotentialAt(c.x, c.y, [c], sqrt).potential == Infinity
    ensures FieldPotentialAt(x1, y1, [c], sqrt).potential.Finite?
    ensures FieldPotentialAt(x2, y2, [c], sqrt).potential.Finite?
    ensures FieldPotentialAt(x2, y2, [c], sqrt).potential.value < FieldPotentialAt(x1, y1, [c], sqrt).potential.value
  {
    assert [c][0] == c && [c][..0] == [];
    assert OnCharge(c.x, c.y, [c]);
    var s1, s2 := IntSqDist(x1, y1, c) as real, IntSqDist(x2, y2, c) as real;
    SqrtMonotone(sqrt, s1, s2);
    SqrtMonotone(sqrt, 0.0, s1);
    SqrtZero(sqrt, 0.0);
    DivLess(c.q, Root(sqrt, s1), Root(sqrt, s2));
    assert !OnCharge(x1, y1, [c]) && !OnCharge(x2, y2, [c]);
    assert Accumulate(x1, y1, [c], sqrt).v == 0.0 + c.q / Root(sqrt, s1);
    assert Accumulate(x2, y2, [c], sqrt).v == 0.0 + c.q / Root(sqrt, s2);
  }

  /** Flipping one charge negates its term. */
  lemma TermNegated(x: int, y: int, c: StationaryCharge, sqrt: real -> real)
    requires IsSqrt(sqrt)
    requires x != c.x || y != c.y
    ensures Term(x, y, c.(q := -c.q), sqrt) == Sums(-Term(x, y, c, sqrt).ex, -Term(x, y, c, sqrt).ey, -Term(x, y, c, sqrt).v)
  {
    var c' := c.(q := -c.q);
    assert c'.x == c.x && c'.y == c.y;
    var rSq := IntSqDist(x, y, c) as real;
    assert IntSqDist(x, y, c') == IntSqDist(x, y, c);
    SqrtZero(sqrt, rSq);
    var dx, dy := (x - c.x) as real, (y - c.y) as real;
    NegDiv(c.q * dx, rSq);
    NegDiv(c.q * dy, rSq);
    NegDiv(c.q, Root(sqrt, rSq));
    assert (-c.q) * dx == -(c.q * dx);
    assert (-c.q) * dy == -(c.q * dy);
  }

  /** Flipping every charge's sign moves no charge: the same points hold a charge. */
  lemma OnChargeNegated(x: int, y: int, cs: seq<StationaryCharge>)
    ensures OnCharge(x, y, Negated(cs)) <==> OnCharge(x, y, cs)
  {
    var ns := Negated(cs);
    if OnCharge(x, y, cs) {
      var i :| 0 <= i < |cs| && cs[i].x == x && cs[i].y == y;
      assert ns[i].x == x && ns[i].y == y;
    }
    if OnCharge(x, y, ns) {
      var i :| 0 <= i < |ns| && ns[i].x == x && ns[i].y == y;
      assert cs[i].x == x && cs[i].y == y;
    }
  }

  /** Flipping every charge keeps the sentinel cells and negates every finite sample. */
  lemma {:induction false} AccumulateNegated(x: int, y: int, cs: seq<StationaryCharge>, sqrt: real -> real)
    requires IsSqrt(sqrt)
    requires !OnCharge(x, y, cs)
    ensures !OnCharge(x, y, Negated(cs))
    ensures var s := Accumulate(x, y, cs, sqrt);
      Accumulate(x, y, Negated(cs), sqrt) == Sums(-s.ex, -s.ey, -s.v)
    decreases |cs|
  {
    var ns := Negated(cs);
    assert forall i :: 0 <= i < |cs| ==> ns[i].x == cs[i].x && ns[i].y == cs[i].y;
    if |cs| > 0 {
      var n := |cs| - 1;
      assert ns[..n] == Negated(cs[..n]);
      assert ns[n] == cs[n].(q := -cs[n].q);
      assert !OnCharge(x, y, cs[..n]);
      AccumulateNegated(x, y, cs[..n], sqrt);
      TermNegated(x, y, cs[n], sqrt);
    }
  }
  /**
   * Flipping every charge's sign keeps the sentinel cells, which are the
   * charge cells in both samples, and negates every finite component.
   */
  lemma FieldPotentialNegated(x: int, y: int, cs: seq<StationaryCharge>, sqrt: real -> real)
    requires IsSqrt(sqrt)
    ensures var d, e := FieldPotentialAt(x, y, cs, sqrt), FieldPotentialAt(x, y, Negated(cs), sqrt);
      (e.potential.Infinity? <==> d.potential.Infinity?) &&
      (d.potential.Infinity? ==> e == d) &&
      (d.potential.Finite? ==>
         e == CellData(Finite(-d.ex.value), Finite(-d.ey.value), Finite(-d.potential.value)))
  {
    OnChargeNegated(x, y, cs);
    if !OnCharge(x, y, cs) {
      AccumulateNegated(x, y, cs, sqrt);
    }
  }


  lemma ScaleLaw(q: real, d: real, rSq: real, r: real, k: real)
    requires rSq != 0.0 && r != 0.0 && k != 0.0
    ensures q * d / rSq == (r / k) * ((k * q / (rSq * r)) * d)
  {
    var f := k * q / (rSq * r);
    assert (r / k) * f == q / rSq;
  }

  /** At integer points the particle lookup's squared distance is the sampler's, exactly. */
  lemma SqDistAtGridPoint(x: int, y: int, c: StationaryCharge)
    ensures SqDist(x as real, y as real, c) == IntSqDist(x, y, c) as real
  {
    var dx, dy := x - c.x, y - c.y;
    assert IntSqDist(x, y, c) == dx * dx + dy * dy;
    var dxr, dyr := dx as real, dy as real;
    assert (dx * dx) as real == dxr * dxr && (dy * dy) as real == dyr * dyr;
  }

  /**
   * Where both laws are defined, the grid's intensity term is the particle
   * lookup's term scaled by r / K: the grid falls off one power of r slower
   * and leaves out Coulomb's constant.
   */
  lemma GridLawVersusParticleLaw(c: StationaryCharge, x: int, y: int, sqrt: real -> real)
    requires IsSqrt(sqrt)
    requires 4 <= IntSqDist(x, y, c)
    ensures SqDist(x as real, y as real, c) == IntSqDist(x, y, c) as real
    ensures var r := Root(sqrt, IntSqDist(x, y, c) as real);
      var e := Contribution(x as real, y as real, c, sqrt);
      Term(x, y, c, sqrt).ex == (r / K) * e.x && Term(x, y, c, sqrt).ey == (r / K) * e.y
  {
    SqDistAtGridPoint(x, y, c);
    var dx, dy := x - c.x, y - c.y;
    var rSq := IntSqDist(x, y, c) as real;
    var dxr, dyr := dx as real, dy as real;
    var r := Root(sqrt, rSq);
    TermValue(x, y, c, dx, dy, sqrt);
    ContributionFactor(x as real, y as real, c, sqrt, dxr, dyr, rSq, r);
    CoulombTermIs(c.q, dxr, dyr, rSq, r);
    ScaleLaw(c.q, dxr, rSq, r, K);
    ScaleLaw(c.q, dyr, rSq, r, K);
  }
}
