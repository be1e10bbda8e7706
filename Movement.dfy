/** The motion helpers of `src/components/movement.ts`: one interpolation step
    toward a target and the arrival test. Coordinates are exact reals; the
    source's double-precision rounding is not modelled. */
module Movement {

  /** A point in the plane (the source's `[number, number]`). */
  datatype Vec2 = Vec2(x: real, y: real)

  /** The default arrival tolerance. */
  const DefaultTolerance: real := 0.1

  /** Square of the Euclidean distance between two points. */
  function SquaredDistance(a: Vec2, b: Vec2): (d: real)
    ensures d >= 0.0
  {
    var dx, dy := b.x - a.x, b.y - a.y;
    dx * dx + dy * dy
  }

  /** One step from `current` toward `target`, covering the fraction `speed`
      of the offset on each axis: the remaining offset is `1 - speed` times
      what it was. */
  function InterpolatePosition(current: Vec2, target: Vec2, speed: real): (next: Vec2)
    ensures target.x - next.x == (1.0 - speed) * (target.x - current.x)
    ensures target.y - next.y == (1.0 - speed) * (target.y - current.y)
  {
    var dx := target.x - current.x;
    var dy := target.y - current.y;
    Vec2(current.x + dx * speed, current.y + dy * speed)
  }

  /** `Math.hypot(dx, dy) <= tolerance`. A negative tolerance is never met,
      since a distance is never negative; otherwise squaring both sides is exact. */
  predicate ReachedTarget(current: Vec2, target: Vec2, tolerance: real := DefaultTolerance): (r: bool)
    ensures r ==> tolerance >= 0.0
    ensures r ==> (target.x - current.x) * (target.x - current.x) <= tolerance * tolerance
    ensures r ==> (target.y - current.y) * (target.y - current.y) <= tolerance * tolerance
    ensures current == target ==> (r <==> tolerance >= 0.0)
  {
    tolerance >= 0.0 && SquaredDistance(current, target) <= tolerance * tolerance
  }

  /** Speed 0 stays put and speed 1 lands on the target. */
  lemma InterpolateEndpoints(current: Vec2, target: Vec2)
    ensures InterpolatePosition(current, target, 0.0) == current
    ensures InterpolatePosition(current, target, 1.0) == target
  {
  }

  /** For a speed strictly between 0 and 1 the step lands strictly between
      the current and the target coordinate on every axis where they differ. */
  lemma InterpolateStrictlyBetween(current: Vec2, target: Vec2, speed: real)
    requires 0.0 < speed < 1.0
    ensures var next := InterpolatePosition(current, target, speed);
      && (current.x < target.x ==> current.x < next.x < target.x)
      && (current.x > target.x ==> target.x < next.x < current.x)
      && (current.y < target.y ==> current.y < next.y < target.y)
      && (current.y > target.y ==> target.y < next.y < current.y)
  {
    var next := InterpolatePosition(current, target, speed);
    var dx, dy := target.x - current.x, target.y - current.y;
    assert next.x - current.x == speed * dx;
    assert next.y - current.y == speed * dy;
    assert target.x - next.x == (1.0 - speed) * dx;
    assert target.y - next.y == (1.0 - speed) * dy;
    ProductSign(speed, dx);
    ProductSign(1.0 - speed, dx);
    ProductSign(speed, dy);
    ProductSign(1.0 - speed, dy);
  }

  lemma ProductSign(k: real, d: real)
    requires k > 0.0
    ensures d > 0.0 ==> k * d > 0.0
    ensures d < 0.0 ==> k * d < 0.0
  {
  }

  /** The squared distance to the target shrinks by the factor `(1 - speed)²`,
      so for a speed in [0, 1] it never grows. */
  lemma InterpolateApproaches(current: Vec2, target: Vec2, speed: real)
    requires 0.0 <= speed <= 1.0
    ensures var next := InterpolatePosition(current, target, speed);
      && SquaredDistance(next, target) == (1.0 - speed) * (1.0 - speed) * SquaredDistance(current, target)
      && SquaredDistance(next, target) <= SquaredDistance(current, target)
  {
    var next := InterpolatePosition(current, target, speed);
    var k := 1.0 - speed;
    var dx, dy := target.x - current.x, target.y - current.y;
    assert SquaredDistance(next, target) == (k * dx) * (k * dx) + (k * dy) * (k * dy);
    assert (k * dx) * (k * dx) + (k * dy) * (k * dy) == k * k * (dx * dx + dy * dy);
    assert 0.0 <= k * k <= 1.0 by {
      assert 0.0 <= k <= 1.0;
      assert k * k <= k * 1.0;
    }
  }

  /** Once reached, a target stays reached after any further step at a speed in [0, 1]. */
  lemma ReachedStaysReached(current: Vec2, target: Vec2, speed: real, tolerance: real)
    requires 0.0 <= speed <= 1.0
    requires ReachedTarget(current, target, tolerance)
    ensures ReachedTarget(InterpolatePosition(current, target, speed), target, tolerance)
  {
    InterpolateApproaches(current, target, speed);
  }

  /** The arrival test does not care which point is which. */
  lemma ReachedSymmetric(a: Vec2, b: Vec2, tolerance: real)
    ensures ReachedTarget(a, b, tolerance) == ReachedTarget(b, a, tolerance)
  {
    assert SquaredDistance(a, b) == SquaredDistance(b, a);
  }

  /** A point has reached itself for every non-negative tolerance, and a point
      exactly `tolerance` away along an axis counts as reached. */
  lemma ReachedBoundary(p: Vec2, tolerance: real)
    requires tolerance >= 0.0
    ensures ReachedTarget(p, p, tolerance)
    ensures ReachedTarget(p, Vec2(p.x + tolerance, p.y), tolerance)
  {
  }

  /** The interpolation case the source's tests check. */
  lemma InterpolateExample()
    ensures var next := InterpolatePosition(Vec2(0.0, 0.0), Vec2(10.0, 0.0), 0.1);
      0.0 < next.x < 10.0
  {
  }

  /** The arrival cases: the one the source's tests check, and one beyond
      the default tolerance. */
  lemma ReachedExamples()
    ensures ReachedTarget(Vec2(9.99, 0.0), Vec2(10.0, 0.0), 0.05)
    ensures !ReachedTarget(Vec2(0.0, 0.0), Vec2(10.0, 0.0))
  {
    assert SquaredDistance(Vec2(9.99, 0.0), Vec2(10.0, 0.0)) == 0.0001;
    assert SquaredDistance(Vec2(0.0, 0.0), Vec2(10.0, 0.0)) == 100.0;
  }
}
