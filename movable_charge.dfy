// The field lookup used to move particles: the Coulomb field of the
// stationary charges at a real point, or a collision signal when the point
// is closer than 2 to any of them.

module MovableChargeField {
  import opened Helpers
  import opened Charges
  import opened Wrappers

  /** Coulomb's constant as the particle lookup writes it. */
  const K: real := 8990000000.0

  /** The vector from the charge to the point (x, y). */
  function Displacement(px: real, py: real, c: StationaryCharge): XY
  {
    XY(px - c.x as real, py - c.y as real)
  }

  /** The squared distance from the charge to (px, py). */
  function SqDist(px: real, py: real, c: StationaryCharge): (s: real)
    ensures s == Dot(Displacement(px, py, c), Displacement(px, py, c))
    ensures 0.0 <= s
  {
    var dx, dy := px - c.x as real, py - c.y as real;
    var dxx, dyy := dx * dx, dy * dy;
    assert 0.0 <= dxx && 0.0 <= dyy;
    dxx + dyy
  }

  lemma MulPos(a: real, b: real)
    requires 0.0 < a && 0.0 < b
    ensures 0.0 < a * b
  {
  }

  /** At squared distance at least 4 the distance is at least 2 and the divisor is positive. */
  lemma FarEnough(sqrt: real -> real, rSq: real)
    requires IsSqrt(sqrt)
    requires 4.0 <= rSq
    ensures 2.0 <= Root(sqrt, rSq)
    ensures 0.0 < rSq * Root(sqrt, rSq)
  {
    SqrtBelow(sqrt, rSq, 2.0);
    MulPos(rSq, Root(sqrt, rSq));
  }

  /** The point collides with some stationary charge: it is closer than 2 to it. */
  predicate Colliding(px: real, py: real, cs: seq<StationaryCharge>)
    ensures Colliding(px, py, cs) ==> |cs| > 0
  {
    exists i :: 0 <= i < |cs| && SqDist(px, py, cs[i]) < 4.0
  }

  /** K * q * (dx, dy) / (rSq * r): Coulomb's law once the distances are known. */
  function CoulombTerm(q: real, dx: real, dy: real, rSq: real, r: real): XY
    requires rSq * r != 0.0
  {
    var factor := K * q / (rSq * r);
    XY(factor * dx, factor * dy)
  }

  /** The Coulomb term, component by component. */
  lemma CoulombTermIs(q: real, dx: real, dy: real, rSq: real, r: real)
    requires rSq * r != 0.0
    ensures var f := K * q / (rSq * r); CoulombTerm(q, dx, dy, rSq, r) == XY(f * dx, f * dy)
  {
  }

  /** One charge's term K * q * (p - c) / (r^2 * r). */
  function Contribution(px: real, py: real, c: StationaryCharge, sqrt: real -> real): (e: XY)
    requires IsSqrt(sqrt)
    requires 4.0 <= SqDist(px, py, c)
    ensures c.q == 0.0 ==> e == XY(0.0, 0.0)
  {
    var rSq := SqDist(px, py, c);
    FarEnough(sqrt, rSq);
    assert c.q == 0.0 ==> K * c.q == 0.0;
    CoulombTerm(c.q, px - c.x as real, py - c.y as real, rSq, Root(sqrt, rSq))
  }

  /** The summed field of all charges, in list order, away from every collision. */
  function FieldSum(px: real, py: real, cs: seq<StationaryCharge>, sqrt: real -> real): XY
    requires IsSqrt(sqrt)
    requires !Colliding(px, py, cs)
    decreases |cs|
  {
    if |cs| == 0 then XY(0.0, 0.0)
    else
      var n := |cs| - 1;
      Add(FieldSum(px, py, cs[..n], sqrt), Contribution(px, py, cs[n], sqrt))
  }

  /** Contribution written with precomputed differences, squared distance and distance. */
  lemma ContributionFactor(px: real, py: real, c: StationaryCharge, sqrt: real -> real, dx: real, dy: real, rSq: real, r: real)
    requires IsSqrt(sqrt)
    requires dx == px - c.x as real && dy == py - c.y as real
    requires rSq == SqDist(px, py, c) && 4.0 <= rSq && r == Root(sqrt, rSq)
    ensures 2.0 <= r && r * r == rSq && rSq * r != 0.0
    ensures Contribution(px, py, c, sqrt) == CoulombTerm(c.q, dx, dy, rSq, r)
  {
    FarEnough(sqrt, rSq);
  }

  /** The sum over one more charge, when that charge is far enough away. */
  lemma FieldSumNext(px: real, py: real, cs: seq<StationaryCharge>, i: nat, sqrt: real -> real)
    requires IsSqrt(sqrt)
    requires i < |cs| && !Colliding(px, py, cs[..i]) && 4.0 <= SqDist(px, py, cs[i])
    ensures !Colliding(px, py, cs[..i + 1])
    ensures FieldSum(px, py, cs[..i + 1], sqrt) == Add(FieldSum(px, py, cs[..i], sqrt), Contribution(px, py, cs[i], sqrt))
  {
    var done := cs[..i + 1];
    assert done[..i] == cs[..i] && done[i] == cs[i];
    forall j | 0 <= j < |done|
      ensures 4.0 <= SqDist(px, py, done[j])
    {
      if j < i {
        assert done[j] == cs[..i][j];
      }
    }
  }

  /**
   * One round of the lookup loop: a distance below 2 is a collision, and
   * otherwise the sum grows by the charge's Coulomb term.
   */
  lemma LookupStep(px: real, py: real, cs: seq<StationaryCharge>, i: nat, sqrt: real -> real)
    requires IsSqrt(sqrt)
    requires i < |cs| && !Colliding(px, py, cs[..i])
    ensures Root(sqrt, SqDist(px, py, cs[i])) < 2.0 ==> Colliding(px, py, cs)
    ensures !(Root(sqrt, SqDist(px, py, cs[i])) < 2.0) ==>
      var rSq := SqDist(px, py, cs[i]);
      rSq * Root(sqrt, rSq) != 0.0 &&
      !Colliding(px, py, cs[..i + 1]) &&
      FieldSum(px, py, cs[..i + 1], sqrt) ==
        Add(FieldSum(px, py, cs[..i], sqrt), CoulombTerm(cs[i].q, px - cs[i].x as real, py - cs[i].y as real, rSq, Root(sqrt, rSq)))
  {
    var c := cs[i];
    var rSq := SqDist(px, py, c);
    var dist := Root(sqrt, rSq);
    SqrtBelow(sqrt, rSq, 2.0);
    if !(dist < 2.0) {
      ContributionFactor(px, py, c, sqrt, px - c.x as real, py - c.y as real, rSq, dist);
      FieldSumNext(px, py, cs, i, sqrt);
    }
  }

  /** What the lookup yields: a collision signal, or the summed field. */
  function FieldAt(px: real, py: real, cs: seq<StationaryCharge>, sqrt: real -> real): (r: Option<XY>)
    requires IsSqrt(sqrt)
    ensures (forall i :: 0 <= i < |cs| ==> 4.0 <= SqDist(px, py, cs[i])) ==> r.Some?
  {
    if Colliding(px, py, cs) then None else Some(FieldSum(px, py, cs, sqrt))
  }

  /**
   * The lookup loop: it stops with `None` at the first charge whose distance
   * is below 2 and otherwise accumulates every charge's contribution.
   */
  method FieldIntensityMovable(x: real, y: real, stationaryCharges: seq<StationaryCharge>, sqrt: real -> real)
    returns (r: Option<XY>)
    requires IsSqrt(sqrt)
    ensures r.None? <==> Colliding(x, y, stationaryCharges)
    ensures r.Some? ==> r.value == FieldSum(x, y, stationaryCharges, sqrt)
  {
    var intensity := XY(0.0, 0.0);
    var i := 0;
    while i < |stationaryCharges|
      invariant 0 <= i <= |stationaryCharges|
      invariant !Colliding(x, y, stationaryCharges[..i])
      invariant intensity == FieldSum(x, y, stationaryCharges[..i], sqrt)
    {
      var c := stationaryCharges[i];
      var rSq := SqDist(x, y, c);
      var dist := Root(sqrt, rSq);
      LookupStep(x, y, stationaryCharges, i, sqrt);
      if dist < 2.0 {
        return None;
      }
      intensity := Add(intensity, CoulombTerm(c.q, x - c.x as real, y - c.y as real, rSq, dist));
      i := i + 1;
    }
    assert stationaryCharges[..i] == stationaryCharges;
    r := Some(intensity);
  }

  /** With no stationary charges there is no collision and the field is zero. */
  lemma FieldAtEmpty(px: real, py: real, sqrt: real -> real)
    requires IsSqrt(sqrt)
    ensures FieldAt(px, py, [], sqrt) == Some(XY(0.0, 0.0))
  {
  }

  /** A lone charge far enough away contributes exactly its own term. */
  lemma FieldSumSingle(px: real, py: real, c: StationaryCharge, sqrt: real -> real)
    requires IsSqrt(sqrt)
    requires 4.0 <= SqDist(px, py, c)
    ensures !Colliding(px, py, [c])
    ensures FieldSum(px, py, [c], sqrt) == Contribution(px, py, c, sqrt)
  {
    assert [c][..0] == [];
  }

  lemma DivScale(a: real, b: real, r: real)
    requires b != 0.0 && r != 0.0
    ensures (a / (b * r)) * b == a / r
  {
  }

  /** Projected on (dx, dy), the Coulomb term is K * q / r. */
  lemma CoulombAlong(q: real, dx: real, dy: real, rSq: real, r: real)
    requires rSq == dx * dx + dy * dy && rSq != 0.0 && r != 0.0 && rSq * r != 0.0
    ensures Dot(CoulombTerm(q, dx, dy, rSq, r), XY(dx, dy)) == K * q / r
  {
    var f := K * q / (rSq * r);
    var dxx, dyy := dx * dx, dy * dy;
    calc {
      Dot(CoulombTerm(q, dx, dy, rSq, r), XY(dx, dy));
      (f * dx) * dx + (f * dy) * dy;
      f * dxx + f * dyy;
      f * rSq;
      { DivScale(K * q, rSq, r); }
      K * q / r;
    }
  }

  lemma SquareOverSquare(g: real, r: real, rSq: real)
    requires r != 0.0 && r * r == rSq
    ensures (g / r) * (g / r) * rSq == g * g
  {
    var h := g / r;
    assert h * r == g;
    calc {
      h * h * rSq;
      h * h * (r * r);
      (h * r) * (h * r);
      g * g;
    }
  }

  /** The squared length of the Coulomb term is (K * q / rSq)^2 when r is the root of rSq. */
  lemma CoulombSquare(q: real, dx: real, dy: real, rSq: real, r: real)
    requires rSq == dx * dx + dy * dy && r * r == rSq && r != 0.0 && rSq != 0.0 && rSq * r != 0.0
    ensures var e := CoulombTerm(q, dx, dy, rSq, r); Dot(e, e) == (K * q / rSq) * (K * q / rSq)
  {
    var f := K * q / (rSq * r);
    var g := K * q / rSq;
    assert f == g / r;
    var dxx, dyy := dx * dx, dy * dy;
    calc {
      Dot(CoulombTerm(q, dx, dy, rSq, r), CoulombTerm(q, dx, dy, rSq, r));
      (f * dx) * (f * dx) + (f * dy) * (f * dy);
      f * f * dxx + f * f * dyy;
      f * f * rSq;
      { SquareOverSquare(g, r, rSq); }
      g * g;
    }
  }

  /** The Coulomb term of -q is the opposite of that of q. */
  lemma CoulombNeg(q: real, dx: real, dy: real, rSq: real, r: real)
    requires rSq * r != 0.0
    ensures CoulombTerm(-q, dx, dy, rSq, r) == Neg(CoulombTerm(q, dx, dy, rSq, r))
  {
    var d := rSq * r;
    NegDiv(K * q, d);
    assert K * (-q) == -(K * q);
    var f := K * q / d;
    var f' := K * (-q) / d;
    assert f' == -f;
    assert f' * dx == -(f * dx) && f' * dy == -(f * dy);
  }

  /**
   * Projected on the displacement from the charge, one contribution equals
   * K * q / r: it points away from a positive charge and toward a negative one.
   */
  lemma ContributionAlongDisplacement(px: real, py: real, c: StationaryCharge, sqrt: real -> real)
    requires IsSqrt(sqrt)
    requires 4.0 <= SqDist(px, py, c)
    ensures Dot(Contribution(px, py, c, sqrt), Displacement(px, py, c)) == K * c.q / Root(sqrt, SqDist(px, py, c))
    ensures c.q > 0.0 ==> Dot(Contribution(px, py, c, sqrt), Displacement(px, py, c)) > 0.0
    ensures c.q < 0.0 ==> Dot(Contribution(px, py, c, sqrt), Displacement(px, py, c)) < 0.0
    ensures c.q == 0.0 ==> Contribution(px, py, c, sqrt) == XY(0.0, 0.0)
  {
    var rSq := SqDist(px, py, c);
    var r := Root(sqrt, rSq);
    var d := Displacement(px, py, c);
    ContributionFactor(px, py, c, sqrt, d.x, d.y, rSq, r);
    CoulombAlong(c.q, d.x, d.y, rSq, r);
  }

  /** One contribution has magnitude K * |q| / r^2 (squared: (K * q / r^2)^2). */
  lemma ContributionMagnitude(px: real, py: real, c: StationaryCharge, sqrt: real -> real)
    requires IsSqrt(sqrt)
    requires 4.0 <= SqDist(px, py, c)
    ensures var e := Contribution(px, py, c, sqrt);
      Dot(e, e) == (K * c.q / SqDist(px, py, c)) * (K * c.q / SqDist(px, py, c))
  {
    var rSq := SqDist(px, py, c);
    var r := Root(sqrt, rSq);
    var d := Displacement(px, py, c);
    ContributionFactor(px, py, c, sqrt, d.x, d.y, rSq, r);
    CoulombSquare(c.q, d.x, d.y, rSq, r);
  }

  /** The list without its element at index k. */
  function Without(cs: seq<StationaryCharge>, k: nat): (r: seq<StationaryCharge>)
    requires k < |cs|
    ensures |r| == |cs| - 1
    ensures forall i :: 0 <= i < k ==> r[i] == cs[i]
    ensures forall i :: k <= i < |r| ==> r[i] == cs[i + 1]
  {
    cs[..k] + cs[k + 1..]
  }

  /** A charge with q = 0, wherever it stands in the list, changes nothing. */
  lemma {:induction false} FieldSumZeroCharge(px: real, py: real, cs: seq<StationaryCharge>, k: nat, sqrt: real -> real)
    requires IsSqrt(sqrt)
    requires k < |cs| && cs[k].q == 0.0
    requires !Colliding(px, py, cs)
    ensures !Colliding(px, py, Without(cs, k))
    ensures FieldSum(px, py, cs, sqrt) == FieldSum(px, py, Without(cs, k), sqrt)
    decreases |cs|
  {
    var n := |cs| - 1;
    var rest := Without(cs, k);
    WithoutNotColliding(px, py, cs, k);
    FieldSumLast(px, py, cs, sqrt);
    if k == n {
      assert rest == cs[..n];
      assert Contribution(px, py, cs[n], sqrt) == XY(0.0, 0.0);
    } else {
      FieldSumZeroCharge(px, py, cs[..n], k, sqrt);
      assert rest[..n - 1] == Without(cs[..n], k);
      assert rest[n - 1] == cs[n];
      FieldSumLast(px, py, rest, sqrt);
    }
  }

  /** Dropping a charge cannot bring on a collision. */
  lemma WithoutNotColliding(px: real, py: real, cs: seq<StationaryCharge>, k: nat)
    requires k < |cs| && !Colliding(px, py, cs)
    ensures !Colliding(px, py, Without(cs, k))
  {
    var rest := Without(cs, k);
    forall i | 0 <= i < |rest|
      ensures 4.0 <= SqDist(px, py, rest[i])
    {
      if i < k {
        assert rest[i] == cs[i];
      } else {
        assert rest[i] == cs[i + 1];
      }
    }
  }

  /** A charge d with c's place and the opposite sign has c's distance and the opposite contribution. */
  lemma ContributionNegated(px: real, py: real, c: StationaryCharge, d: StationaryCharge, sqrt: real -> real)
    requires IsSqrt(sqrt)
    requires 4.0 <= SqDist(px, py, c)
    requires d.x == c.x && d.y == c.y && d.q == -c.q
    ensures SqDist(px, py, d) == SqDist(px, py, c)
    ensures Contribution(px, py, d, sqrt) == Neg(Contribution(px, py, c, sqrt))
  {
    var rSq := SqDist(px, py, c);
    var r := Root(sqrt, rSq);
    SqDistIgnoresCharge(px, py, c, d.q);
    assert d == c.(q := d.q);
    ContributionFactor(px, py, c, sqrt, px - c.x as real, py - c.y as real, rSq, r);
    ContributionFactor(px, py, d, sqrt, px - c.x as real, py - c.y as real, rSq, r);
    CoulombNeg(c.q, px - c.x as real, py - c.y as real, rSq, r);
  }

  /** The squared distance does not depend on the charge's value. */
  lemma SqDistIgnoresCharge(px: real, py: real, c: StationaryCharge, q: real)
    ensures SqDist(px, py, c.(q := q)) == SqDist(px, py, c)
  {
    var c' := c.(q := q);
    assert c'.x == c.x && c'.y == c.y;
  }

  /** Flipping every charge leaves the collision test alone. */
  lemma CollidingNegated(px: real, py: real, cs: seq<StationaryCharge>)
    ensures Colliding(px, py, Negated(cs)) == Colliding(px, py, cs)
  {
    var ns := Negated(cs);
    forall i | 0 <= i < |cs|
      ensures SqDist(px, py, ns[i]) == SqDist(px, py, cs[i])
    {
      SqDistIgnoresCharge(px, py, cs[i], -cs[i].q);
    }
  }

  /** The sum over a non-empty list is the sum over all but the last charge plus the last one's term. */
  lemma FieldSumLast(px: real, py: real, cs: seq<StationaryCharge>, sqrt: real -> real)
    requires IsSqrt(sqrt)
    requires |cs| > 0 && !Colliding(px, py, cs)
    ensures !Colliding(px, py, cs[..|cs| - 1]) && 4.0 <= SqDist(px, py, cs[|cs| - 1])
    ensures FieldSum(px, py, cs, sqrt) == Add(FieldSum(px, py, cs[..|cs| - 1], sqrt), Contribution(px, py, cs[|cs| - 1], sqrt))
  {
  }

  lemma AddNeg(a: XY, b: XY)
    ensures Add(Neg(a), Neg(b)) == Neg(Add(a, b))
  {
  }

  lemma NegZero()
    ensures Neg(XY(0.0, 0.0)) == XY(0.0, 0.0)
  {
  }

  /** Negating a list and then dropping its last charge is dropping it and then negating. */
  lemma NegatedLast(cs: seq<StationaryCharge>)
    requires |cs| > 0
    ensures Negated(cs)[..|cs| - 1] == Negated(cs[..|cs| - 1])
    ensures Negated(cs)[|cs| - 1] == cs[|cs| - 1].(q := -cs[|cs| - 1].q)
  {
  }

  /** With no charges, negating the list changes nothing and the sum is zero either way. */
  lemma FieldSumNilNegated(px: real, py: real, cs: seq<StationaryCharge>, sqrt: real -> real)
    requires IsSqrt(sqrt) && cs == []
    ensures Negated(cs) == [] && !Colliding(px, py, Negated(cs))
    ensures FieldSum(px, py, Negated(cs), sqrt) == Neg(FieldSum(px, py, cs, sqrt))
  {
    assert Negated(cs) == [];
    assert FieldSum(px, py, [], sqrt) == XY(0.0, 0.0);
    NegZero();
  }

  /** Flipping every charge negates the summed field. */
  lemma {:induction false} FieldSumNegated(px: real, py: real, cs: seq<StationaryCharge>, sqrt: real -> real)
    requires IsSqrt(sqrt)
    requires !Colliding(px, py, cs)
    ensures !Colliding(px, py, Negated(cs))
    ensures FieldSum(px, py, Negated(cs), sqrt) == Neg(FieldSum(px, py, cs, sqrt))
    decreases |cs|
  {
    if |cs| == 0 {
      FieldSumNilNegated(px, py, cs, sqrt);
    } else {
      CollidingNegated(px, py, cs);
      var n := |cs| - 1;
      var ns := Negated(cs);
      NegatedLast(cs);
      FieldSumLast(px, py, cs, sqrt);
      FieldSumLast(px, py, ns, sqrt);
      FieldSumNegated(px, py, cs[..n], sqrt);
      ContributionNegated(px, py, cs[n], ns[n], sqrt);
      AddNeg(FieldSum(px, py, cs[..n], sqrt), Contribution(px, py, cs[n], sqrt));
    }
  }
}
