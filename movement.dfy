/** One move of one player on the server (server.js handleMove, without the catch pass it triggers). */
module Movement {
  import opened World
  import opened Geometry

  /** A `direction` field; `Other` is any string the switch does not name, which leaves the position as it is. */
  datatype Direction = Up | Down | Left | Right | Other

  function Stepped(p: Position, d: Direction): Position {
    match d
    case Up => p.(y := p.y - Speed)
    case Down => p.(y := p.y + Speed)
    case Left => p.(x := p.x - Speed)
    case Right => p.(x := p.x + Speed)
    case Other => p
  }

  /** The early return of `handleMove`: fewer than 100 ms since the last accepted attempt. */
  predicate Throttled(pl: Player, now: int) {
    now - pl.lastMoveTime < MoveCooldown
  }

  /** `Math.max(size, Math.min(v, canvas - size))` on both axes. */
  function ClampToCanvas(p: Position, size: int): Position {
    Position(Clamp(p.x, size, CanvasWidth - size), Clamp(p.y, size, CanvasHeight - size))
  }

  /** A centre keeping a circle of radius `size` wholly on the canvas. */
  predicate InBounds(p: Position, size: int) {
    size <= p.x <= CanvasWidth - size && size <= p.y <= CanvasHeight - size
  }

  predicate OnCanvas(p: Position) {
    0 <= p.x <= CanvasWidth && 0 <= p.y <= CanvasHeight
  }

  /**
   * An attempt past the cooldown: one step, rejected as a whole when the stepped circle meets an
   * obstacle, clamped to the canvas otherwise; the attempt time is recorded either way.
   */
  function Attempt(pl: Player, d: Direction, now: int, obstacles: seq<Obstacle>): (q: Player)
    ensures q.lastMoveTime == now
    ensures q == pl.(position := q.position, lastMoveTime := now)
    ensures CollidingWithObstacles(Stepped(pl.position, d), pl.size, obstacles) ==> q.position == pl.position
    ensures !CollidingWithObstacles(Stepped(pl.position, d), pl.size, obstacles) && 2 * pl.size <= CanvasHeight
      ==> InBounds(q.position, pl.size)
  {
    var next := Stepped(pl.position, d);
    if CollidingWithObstacles(next, pl.size, obstacles) then pl.(lastMoveTime := now)
    else pl.(position := ClampToCanvas(next, pl.size), lastMoveTime := now)
  }

  /** Clamping changes nothing for a point already in bounds, and always lands in bounds. */
  lemma ClampToCanvasProjects(p: Position, size: nat)
    requires 2 * size <= CanvasHeight
    ensures InBounds(ClampToCanvas(p, size), size)
    ensures InBounds(p, size) ==> ClampToCanvas(p, size) == p
    ensures ClampToCanvas(ClampToCanvas(p, size), size) == ClampToCanvas(p, size)
  {
  }

  /**
   * From a position in bounds, an attempt moves the player at most one step, along the axis of
   * its direction and towards it, and not at all for an unknown direction. When the stepped
   * circle is clear of obstacles the player does move: a full step, or up to the margin the
   * canvas keeps when that is nearer.
   */
  lemma AttemptMovesAtMostOneStep(pl: Player, d: Direction, now: int, obstacles: seq<Obstacle>)
    requires 2 * pl.size <= CanvasHeight
    requires InBounds(pl.position, pl.size)
    ensures var p, q := pl.position, Attempt(pl, d, now, obstacles).position;
      match d
      case Up => q.x == p.x && p.y - Speed <= q.y <= p.y
      case Down => q.x == p.x && p.y <= q.y <= p.y + Speed
      case Left => q.y == p.y && p.x - Speed <= q.x <= p.x
      case Right => q.y == p.y && p.x <= q.x <= p.x + Speed
      case Other => q == p
    ensures var p, q := pl.position, Attempt(pl, d, now, obstacles).position;
      !CollidingWithObstacles(Stepped(p, d), pl.size, obstacles) ==>
        match d
        case Up => q == p.(y := Max(pl.size, p.y - Speed))
        case Down => q == p.(y := Min(CanvasHeight - pl.size, p.y + Speed))
        case Left => q == p.(x := Max(pl.size, p.x - Speed))
        case Right => q == p.(x := Min(CanvasWidth - pl.size, p.x + Speed))
        case Other => q == p
  {
    var next := Stepped(pl.position, d);
    if !CollidingWithObstacles(next, pl.size, obstacles) {
      ClampToCanvasProjects(pl.position, pl.size);
    }
  }

  /** A player whose centre is on the canvas stays on it after any attempt. */
  lemma AttemptStaysOnCanvas(pl: Player, d: Direction, now: int, obstacles: seq<Obstacle>)
    requires 2 * pl.size <= CanvasHeight
    requires OnCanvas(pl.position)
    ensures OnCanvas(Attempt(pl, d, now, obstacles).position)
  {
  }
}
