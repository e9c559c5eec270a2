/**
 * The wander generator: a finite, lazily produced sequence of integer pixel
 * coordinates that walks in a straight line from a start point to a
 * destination, one point per call.
 *
 * The firmware computes each intermediate point with single-precision
 * floats and a float-to-integer cast; this model uses the exact rational
 * value and truncates it toward zero, which is what the cast does.
 */
module Wander {
  import opened Wrappers

  type Point = (int, int)

  function Abs(n: int): (r: nat)
    ensures r == n || r == -n
  {
    if n < 0 then -n else n
  }

  function Sign(n: int): (r: int)
    ensures r * n == Abs(n)
    ensures -1 <= r <= 1
  {
    if n < 0 then -1 else if n == 0 then 0 else 1
  }

  function Min(a: int, b: int): (r: int) { if a <= b then a else b }

  function Max(a: int, b: int): (r: int) { if a <= b then b else a }

  /** The number of steps of a walk: the Chebyshev (king-move) distance. */
  function Chebyshev(sx: int, sy: int, dx: int, dy: int): (d: nat)
    ensures Abs(dx - sx) <= d && Abs(dy - sy) <= d
    ensures d == Abs(dx - sx) || d == Abs(dy - sy)
    ensures d == 0 <==> sx == dx && sy == dy
  {
    Max(Abs(dx - sx), Abs(dy - sy))
  }

  /** Integer division that rounds toward zero, as a float-to-integer cast does. */
  function TruncDiv(a: int, b: int): (q: int)
    requires b > 0
    ensures 0 <= a ==> 0 <= q * b <= a < q * b + b
    ensures a <= 0 ==> q * b - b < a <= q * b <= 0
  {
    if a >= 0 then a / b else -((-a) / b)
  }

  /** The offset along one axis after k of `steps` steps: trunc(k/steps * delta). */
  function AxisOffset(k: int, delta: int, steps: int): (offset: int)
    requires steps > 0
  {
    TruncDiv(k * delta, steps)
  }

  /** The point emitted on the k-th call of a walk from (sx, sy) to (dx, dy). */
  function PointAt(sx: int, sy: int, dx: int, dy: int, k: int): (p: Point)
    requires sx != dx || sy != dy
  {
    var steps := Chebyshev(sx, sy, dx, dy);
    (sx + AxisOffset(k, dx - sx, steps), sy + AxisOffset(k, dy - sy, steps))
  }

  /**
   * Every point a fresh walk from (sx, sy) to (dx, dy) emits, in order:
   * the points for k = 1 .. steps. The start point itself is not emitted.
   */
  function Trajectory(sx: int, sy: int, dx: int, dy: int): (path: seq<Point>)
    ensures |path| == if sx == dx && sy == dy then 0 else Chebyshev(sx, sy, dx, dy)
  {
    if sx == dx && sy == dy then []
    else seq(Chebyshev(sx, sy, dx, dy), i requires 0 <= i => PointAt(sx, sy, dx, dy, i + 1))
  }

  /** p lies in the axis-aligned box spanned by (sx, sy) and (dx, dy), borders included. */
  predicate InBox(p: Point, sx: int, sy: int, dx: int, dy: int) {
    Min(sx, dx) <= p.0 <= Max(sx, dx) && Min(sy, dy) <= p.1 <= Max(sy, dy)
  }

  /** One axis of a king move towards a goal: stay, or move one unit in the goal's direction. */
  predicate StepsToward(from: int, to: int, direction: int) {
    to == from || to == from + Sign(direction)
  }

  /** A king move from p to q that never moves away from the goal on either axis. */
  predicate KingStep(p: Point, q: Point, sx: int, sy: int, dx: int, dy: int) {
    p != q && StepsToward(p.0, q.0, dx - sx) && StepsToward(p.1, q.1, dy - sy)
  }

  // ---------------------------------------------------------------------
  // Arithmetic on one axis
  // ---------------------------------------------------------------------

  lemma MulCancel(a: int, b: int, c: int)
    requires c > 0
    ensures a * c <= b * c <==> a <= b
    ensures a * c < b * c <==> a < b
  {
    assert a * c - b * c == (a - b) * c;
    if a < b {
      MulPositive(b - a - 1, c);
      assert (b - a) * c == (b - a - 1) * c + c;
    } else if a > b {
      MulPositive(a - b - 1, c);
      assert (a - b) * c == (a - b - 1) * c + c;
    }
  }

  lemma MulPositive(x: nat, c: nat)
    ensures x * c >= 0
  {
  }

  lemma TruncDivNegate(a: int, b: int)
    requires b > 0
    ensures TruncDiv(-a, b) == -TruncDiv(a, b)
  {
  }

  lemma AxisOffsetNegate(k: int, delta: int, steps: int)
    requires steps > 0
    ensures AxisOffset(k, -delta, steps) == -AxisOffset(k, delta, steps)
  {
    assert k * -delta == -(k * delta);
    TruncDivNegate(k * delta, steps);
  }

  /** Truncation toward zero of k*delta/steps is the exact quotient when steps divides it. */
  lemma TruncDivExact(m: int, steps: int)
    requires steps > 0 && m >= 0
    ensures TruncDiv(m * steps, steps) == m
  {
    var q := TruncDiv(m * steps, steps);
    assert m * steps >= 0;
    MulCancel(q, m, steps);
    MulCancel(m, q + 1, steps);
  }

  /** After k of steps steps, the offset stays between 0 and delta. */
  lemma AxisWithin(k: int, delta: int, steps: int)
    requires 0 < steps && 0 <= k <= steps && Abs(delta) <= steps
    ensures Min(0, delta) <= AxisOffset(k, delta, steps) <= Max(0, delta)
  {
    if delta >= 0 {
      AxisWithinForward(k, delta, steps);
    } else {
      AxisWithinForward(k, -delta, steps);
      AxisOffsetNegate(k, -delta, steps);
    }
  }

  lemma AxisWithinForward(k: int, delta: int, steps: int)
    requires 0 < steps && 0 <= k <= steps && 0 <= delta <= steps
    ensures 0 <= AxisOffset(k, delta, steps) <= delta
  {
    var a := k * delta;
    MulPositive(k, delta);
    MulPositive(steps - k, delta);
    assert (steps - k) * delta == steps * delta - a;
    assert steps * delta == delta * steps;
    var q := TruncDiv(a, steps);
    assert 0 * steps <= q * steps <= delta * steps;
    MulCancel(0, q, steps);
    MulCancel(q, delta, steps);
  }

  /** On the last step the offset is exactly delta: no rounding drift at the end. */
  lemma AxisEnd(delta: int, steps: int)
    requires steps > 0
    ensures AxisOffset(steps, delta, steps) == delta
  {
    if delta >= 0 {
      TruncDivExact(delta, steps);
      assert steps * delta == delta * steps;
    } else {
      TruncDivExact(-delta, steps);
      assert steps * -delta == -delta * steps;
      AxisOffsetNegate(steps, -delta, steps);
    }
  }

  /** On an axis whose distance is the step count, the offset after k steps is k units. */
  lemma AxisDominant(k: int, delta: int, steps: int)
    requires steps > 0 && k >= 0 && Abs(delta) == steps
    ensures AxisOffset(k, delta, steps) == k * Sign(delta)
  {
    TruncDivExact(k, steps);
    if delta < 0 {
      AxisOffsetNegate(k, -delta, steps);
    }
  }

  /** Consecutive offsets differ by 0 or by one unit in delta's direction. */
  lemma AxisStep(k: int, delta: int, steps: int)
    requires 0 <= k < steps && Abs(delta) <= steps
    ensures StepsToward(AxisOffset(k, delta, steps), AxisOffset(k + 1, delta, steps), delta)
  {
    if delta >= 0 {
      AxisStepForward(k, delta, steps);
    } else {
      AxisStepForward(k, -delta, steps);
      AxisOffsetNegate(k, -delta, steps);
      AxisOffsetNegate(k + 1, -delta, steps);
    }
  }

  lemma AxisStepForward(k: int, delta: int, steps: int)
    requires 0 <= k < steps && 0 <= delta <= steps
    ensures var q := AxisOffset(k, delta, steps);
      var q' := AxisOffset(k + 1, delta, steps);
      q == q' || q' == q + 1
  {
    var a := k * delta;
    assert a >= 0 by { MulPositive(k, delta); }
    assert (k + 1) * delta == a + delta;
    var q := TruncDiv(a, steps);
    var q' := TruncDiv(a + delta, steps);
    assert q * steps <= a < q * steps + steps;
    assert q' * steps <= a + delta < q' * steps + steps;
    assert (q' + 1) * steps == q' * steps + steps;
    assert (q + 2) * steps == q * steps + steps + steps;
    MulCancel(q, q' + 1, steps);
    MulCancel(q', q + 2, steps);
  }

  // ---------------------------------------------------------------------
  // Laws of a whole walk
  // ---------------------------------------------------------------------

  /** The last point emitted is exactly the destination. */
  lemma EndpointLaw(sx: int, sy: int, dx: int, dy: int)
    requires Trajectory(sx, sy, dx, dy) != []
    ensures Trajectory(sx, sy, dx, dy)[|Trajectory(sx, sy, dx, dy)| - 1] == (dx, dy)
  {
    var steps := Chebyshev(sx, sy, dx, dy);
    AxisEnd(dx - sx, steps);
    AxisEnd(dy - sy, steps);
  }

  /** Every point emitted lies in the bounding box of start and destination. */
  lemma Containment(sx: int, sy: int, dx: int, dy: int)
    ensures forall p :: p in Trajectory(sx, sy, dx, dy) ==> InBox(p, sx, sy, dx, dy)
  {
    var path := Trajectory(sx, sy, dx, dy);
    forall i | 0 <= i < |path| ensures InBox(path[i], sx, sy, dx, dy) {
      var steps := Chebyshev(sx, sy, dx, dy);
      AxisWithin(i + 1, dx - sx, steps);
      AxisWithin(i + 1, dy - sy, steps);
    }
  }

  /**
   * On the dominant axis (the one whose distance is the step count) the walk
   * moves exactly one unit per call, towards the destination.
   */
  lemma DominantAxisUnitSteps(sx: int, sy: int, dx: int, dy: int)
    ensures Abs(dy - sy) <= Abs(dx - sx) ==>
      forall i :: 0 <= i < |Trajectory(sx, sy, dx, dy)| ==>
        Trajectory(sx, sy, dx, dy)[i].0 == sx + (i + 1) * Sign(dx - sx)
    ensures Abs(dx - sx) <= Abs(dy - sy) ==>
      forall i :: 0 <= i < |Trajectory(sx, sy, dx, dy)| ==>
        Trajectory(sx, sy, dx, dy)[i].1 == sy + (i + 1) * Sign(dy - sy)
  {
    var path := Trajectory(sx, sy, dx, dy);
    var steps := Chebyshev(sx, sy, dx, dy);
    forall i | 0 <= i < |path|
      ensures Abs(dy - sy) <= Abs(dx - sx) ==> path[i].0 == sx + (i + 1) * Sign(dx - sx)
      ensures Abs(dx - sx) <= Abs(dy - sy) ==> path[i].1 == sy + (i + 1) * Sign(dy - sy)
    {
      if Abs(dy - sy) <= Abs(dx - sx) {
        AxisDominant(i + 1, dx - sx, steps);
      }
      if Abs(dx - sx) <= Abs(dy - sy) {
        AxisDominant(i + 1, dy - sy, steps);
      }
    }
  }

  /**
   * The walk is a chain of king moves: from the start to the first point and
   * between consecutive points, each axis stays or moves one unit towards the
   * destination, and the point always changes.
   */
  lemma KingWalk(sx: int, sy: int, dx: int, dy: int)
    ensures Trajectory(sx, sy, dx, dy) != [] ==>
      KingStep((sx, sy), Trajectory(sx, sy, dx, dy)[0], sx, sy, dx, dy)
    ensures forall i :: 0 < i < |Trajectory(sx, sy, dx, dy)| ==>
      KingStep(Trajectory(sx, sy, dx, dy)[i - 1], Trajectory(sx, sy, dx, dy)[i], sx, sy, dx, dy)
  {
    var path := Trajectory(sx, sy, dx, dy);
    if path != [] {
      var steps := Chebyshev(sx, sy, dx, dy);
      assert (sx, sy) == (sx + AxisOffset(0, dx - sx, steps), sy + AxisOffset(0, dy - sy, steps));
      StepFrom(sx, sy, dx, dy, 0);
      forall i | 0 < i < |path| ensures KingStep(path[i - 1], path[i], sx, sy, dx, dy) {
        StepFrom(sx, sy, dx, dy, i);
      }
    }
  }

  /** The move from the point after k steps to the point after k + 1 steps is a king step. */
  lemma StepFrom(sx: int, sy: int, dx: int, dy: int, k: int)
    requires sx != dx || sy != dy
    requires 0 <= k < Chebyshev(sx, sy, dx, dy)
    ensures KingStep(PointAt(sx, sy, dx, dy, k), PointAt(sx, sy, dx, dy, k + 1), sx, sy, dx, dy)
  {
    var steps := Chebyshev(sx, sy, dx, dy);
    AxisStep(k, dx - sx, steps);
    AxisStep(k, dy - sy, steps);
    if Abs(dy - sy) <= Abs(dx - sx) {
      AxisDominantMoves(k, dx - sx, steps);
    } else {
      AxisDominantMoves(k, dy - sy, steps);
    }
  }

  /** On the dominant axis every step moves the offset. */
  lemma AxisDominantMoves(k: int, delta: int, steps: int)
    requires steps > 0 && k >= 0 && Abs(delta) == steps
    ensures AxisOffset(k + 1, delta, steps) != AxisOffset(k, delta, steps)
  {
    AxisDominant(k, delta, steps);
    AxisDominant(k + 1, delta, steps);
    assert (k + 1) * Sign(delta) == k * Sign(delta) + Sign(delta);
  }

  /** Scenario: a horizontal walk of four pixels. */
  lemma HorizontalWalk()
    ensures Trajectory(16, 16, 20, 16) == [(17, 16), (18, 16), (19, 16), (20, 16)]
  {
    assert Chebyshev(16, 16, 20, 16) == 4;
    assert PointAt(16, 16, 20, 16, 1) == (17, 16);
    assert PointAt(16, 16, 20, 16, 2) == (18, 16);
    assert PointAt(16, 16, 20, 16, 3) == (19, 16);
    assert PointAt(16, 16, 20, 16, 4) == (20, 16);
  }

  /** Scenario: equal endpoints emit nothing. */
  lemma StationaryWalk()
    ensures Trajectory(10, 10, 10, 10) == []
  {
  }

  /** Scenario: a shallow walk; x advances every call, y only when the truncated offset grows. */
  lemma ShallowWalk()
    ensures Trajectory(0, 0, 4, 2) == [(1, 0), (2, 1), (3, 1), (4, 2)]
  {
    assert Chebyshev(0, 0, 4, 2) == 4;
    assert PointAt(0, 0, 4, 2, 1) == (1, 0);
    assert PointAt(0, 0, 4, 2, 2) == (2, 1);
    assert PointAt(0, 0, 4, 2, 3) == (3, 1);
    assert PointAt(0, 0, 4, 2, 4) == (4, 2);
  }

  /** Scenario: a diagonal walk towards the origin. */
  lemma DiagonalWalkHome()
    ensures Trajectory(5, 5, 0, 0) == [(4, 4), (3, 3), (2, 2), (1, 1), (0, 0)]
  {
    var path := Trajectory(5, 5, 0, 0);
    assert path[0] == (4, 4) && path[1] == (3, 3) && path[2] == (2, 2);
    assert path[3] == (1, 1) && path[4] == (0, 0);
  }

  // ---------------------------------------------------------------------
  // The iterator object
  // ---------------------------------------------------------------------

  /**
   * A walk in progress. The endpoints and the step count are fixed at
   * construction; only `progress`, the number of points emitted so far,
   * changes.
   */
  class Wanderer {
    const startX: int
    const startY: int
    const destX: int
    const destY: int
    const steps: nat
    var progress: nat

    ghost predicate Valid()
      reads this
    {
      steps == Chebyshev(startX, startY, destX, destY) && progress <= steps
    }

    /** The points the following calls of Next will emit, in order. */
    ghost function Remaining(): (rest: seq<Point>)
      reads this
      requires Valid()
    {
      Trajectory(startX, startY, destX, destY)[progress..]
    }

    /** The Exhausted state: every later call of Next returns None. */
    predicate Exhausted()
      reads this
      requires Valid()
      ensures Exhausted() <==> Remaining() == []
    {
      (startX == destX && startY == destY) || progress == steps
    }

    constructor (startX: int, startY: int, destX: int, destY: int)
      ensures this.startX == startX && this.startY == startY
      ensures this.destX == destX && this.destY == destY
      ensures steps == Max(Abs(destX - startX), Abs(destY - startY))
      ensures progress == 0
      ensures Valid()
      ensures Remaining() == Trajectory(startX, startY, destX, destY)
    {
      this.startX, this.startY := startX, startY;
      this.destX, this.destY := destX, destY;
      steps := Max(Abs(destX - startX), Abs(destY - startY));
      progress := 0;
    }

    /**
     * Emits the next point of the walk, or None once the walk is exhausted
     * (at once when the endpoints are equal).
     */
    method Next() returns (r: Option<Point>)
      requires Valid()
      modifies this`progress
      ensures Valid()
      ensures r.None? <==> (startX == destX && startY == destY) || old(progress) == steps
      ensures r.None? ==> progress == old(progress)
      ensures r.Some? ==> progress == old(progress) + 1
      ensures old(Remaining()) == [] ==> r == None && Remaining() == []
      ensures old(Remaining()) != [] ==>
        r == Some(old(Remaining())[0]) && Remaining() == old(Remaining())[1..]
    {
      if startX == destX && startY == destY {
        return None;
      }
      if progress == steps {
        return None;
      }
      progress := progress + 1;
      var x := startX + TruncDiv(progress * (destX - startX), steps);
      var y := startY + TruncDiv(progress * (destY - startY), steps);
      r := Some((x, y));
    }
  }

  /**
   * Scenario: a vertical walk of three pixels, driven through the object. The
   * walk emits its three points and then None on every later call.
   */
  method VerticalWalk() returns (emitted: seq<Option<Point>>)
    ensures emitted == [Some((0, 1)), Some((0, 2)), Some((0, 3)), None, None]
  {
    var w := new Wanderer(0, 0, 0, 3);
    assert w.Remaining() == [(0, 1), (0, 2), (0, 3)];
    var a := w.Next();
    var b := w.Next();
    var c := w.Next();
    var d := w.Next();
    var e := w.Next();
    emitted := [a, b, c, d, e];
  }
}
