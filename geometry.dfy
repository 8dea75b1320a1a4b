/** The server's collision predicates: circle against obstacle rectangle, circle against players, catching reach. */
module Geometry {
  import opened World

  function Sq(v: int): nat {
    v * v
  }

  function SqDist(a: Position, b: Position): nat {
    Sq(a.x - b.x) + Sq(a.y - b.y)
  }

  /**
   * The per-obstacle test of `isCollidingWithObstacles`, with every length doubled so that the
   * half width and half height of the rectangle stay integral: `dx2` is twice the horizontal
   * distance from the circle's centre to the rectangle's centre, `o.width` twice its half width.
   * The branches are those of the source, in its order.
   */
  predicate HitsObstacle(p: Position, r: int, o: Obstacle) {
    var dx2 := Abs(2 * p.x - (2 * o.x + o.width));
    var dy2 := Abs(2 * p.y - (2 * o.y + o.height));
    if dx2 > o.width + 2 * r then false
    else if dy2 > o.height + 2 * r then false
    else if dx2 <= o.width then true
    else if dy2 <= o.height then true
    else Sq(dx2 - o.width) + Sq(dy2 - o.height) <= Sq(2 * r)
  }

  /** `obstacles.some(...)`. */
  predicate CollidingWithObstacles(p: Position, r: int, obstacles: seq<Obstacle>) {
    exists i :: 0 <= i < |obstacles| && HitsObstacle(p, r, obstacles[i])
  }

  /** `players.some(...)`: note the threshold is twice the new entity's own size, not a sum of radii. */
  predicate CollidingWithPlayers(p: Position, size: int, players: seq<Player>) {
    exists i :: 0 <= i < |players| && SqDist(p, players[i].position) <= Sq(2 * size)
  }

  /** `Math.sqrt(dx*dx + dy*dy) < ra + rb`, exact on integers because both sides are non-negative. */
  predicate InReach(a: Position, ra: nat, b: Position, rb: nat) {
    SqDist(a, b) < Sq(ra + rb)
  }

  // An independent reference for the obstacle test: distance to the nearest point of the rectangle.

  function NearestPoint(p: Position, o: Obstacle): Position {
    Position(Clamp(p.x, o.x, o.x + o.width), Clamp(p.y, o.y, o.y + o.height))
  }

  /** On one axis: the gap to the clamped point is zero inside the span and half the doubled overshoot outside. */
  lemma AxisGap(v: int, lo: int, w: int)
    requires w >= 0
    ensures var d2 := Abs(2 * v - (2 * lo + w));
            var g := v - Clamp(v, lo, lo + w);
            (d2 <= w ==> g == 0) && (d2 > w ==> 2 * Abs(g) == d2 - w)
  {
  }

  lemma SqOfAbs(v: int)
    ensures Sq(Abs(v)) == Sq(v)
  {
  }

  lemma SqStrictMono(a: int, b: int)
    requires 0 <= a < b
    ensures Sq(a) < Sq(b)
  {
    assert a * a <= a * b;
    assert a * b < b * b;
  }

  lemma SqMono(a: int, b: int)
    requires 0 <= a <= b
    ensures Sq(a) <= Sq(b)
  {
    if a < b { SqStrictMono(a, b); }
  }

  lemma SqDouble(v: int)
    ensures Sq(2 * v) == 4 * Sq(v)
  {
  }

  /**
   * The source's case split agrees with the textbook test: a circle of radius r meets the
   * rectangle exactly when the rectangle's point nearest to the centre is within r of it.
   */
  lemma {:induction false} HitsObstacleIffNearestWithin(p: Position, r: nat, o: Obstacle)
    requires o.width >= 0 && o.height >= 0
    ensures HitsObstacle(p, r, o) <==> SqDist(p, NearestPoint(p, o)) <= Sq(r)
  {
    var dx2 := Abs(2 * p.x - (2 * o.x + o.width));
    var dy2 := Abs(2 * p.y - (2 * o.y + o.height));
    var n := NearestPoint(p, o);
    var gx, gy := p.x - n.x, p.y - n.y;
    AxisGap(p.x, o.x, o.width);
    AxisGap(p.y, o.y, o.height);
    SqOfAbs(gx);
    SqOfAbs(gy);
    assert SqDist(p, n) == Sq(gx) + Sq(gy);
    if dx2 > o.width + 2 * r {
      assert Abs(gx) > r;
      SqStrictMono(r, Abs(gx));
      assert !HitsObstacle(p, r, o);
    } else if dy2 > o.height + 2 * r {
      assert Abs(gy) > r;
      SqStrictMono(r, Abs(gy));
      assert !HitsObstacle(p, r, o);
    } else if dx2 <= o.width {
      assert gx == 0;
      assert Abs(gy) <= r;
      SqMono(Abs(gy), r);
    } else if dy2 <= o.height {
      assert gy == 0;
      assert Abs(gx) <= r;
      SqMono(Abs(gx), r);
    } else {
      assert dx2 - o.width == 2 * Abs(gx);
      assert dy2 - o.height == 2 * Abs(gy);
      SqDouble(Abs(gx));
      SqDouble(Abs(gy));
      SqDouble(r);
      assert HitsObstacle(p, r, o) <==> 4 * Sq(gx) + 4 * Sq(gy) <= 4 * Sq(r);
    }
  }
}
