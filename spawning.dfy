/**
 * Random placement on the server: obstacle generation, candidate spawn points for players and
 * cheese, the rejection-sampling retry loop, and the draw of cat indexes at match start.
 * Every Math.random() value is a parameter in [0, 1).
 */
module Spawning {
  import opened World
  import opened Geometry

  /** `Math.floor(r * n)`. */
  function Pick(r: real, n: int): (k: int)
    ensures IsRandom(r) && n > 0 ==> 0 <= k < n
  {
    var x := r * n as real;
    assert IsRandom(r) && n > 0 ==> 0.0 <= x < n as real by {
      if IsRandom(r) && n > 0 {
        ScaledRandom(r, n as real);
      }
    }
    x.Floor
  }

  /** A value in `[0, 1)` scaled by a positive `m` lies in `[0, m)`. */
  lemma ScaledRandom(r: real, m: real)
    requires 0.0 <= r < 1.0 && m > 0.0
    ensures 0.0 <= r * m < m
  {
    assert m - r * m == (1.0 - r) * m;
  }

  // ----- obstacles (server.js generateObstacles) -----

  datatype ObstacleDraw = ObstacleDraw(rx: real, ry: real, rw: real, rh: real)

  predicate IsRandomObstacleDraw(d: ObstacleDraw) {
    IsRandom(d.rx) && IsRandom(d.ry) && IsRandom(d.rw) && IsRandom(d.rh)
  }

  function ObstacleFrom(d: ObstacleDraw): Obstacle {
    Obstacle(
      Pick(d.rx, CanvasWidth / Cell) * Cell,
      Pick(d.ry, CanvasHeight / Cell) * Cell,
      (Pick(d.rw, 3) + 1) * Cell,
      (Pick(d.rh, 3) + 1) * Cell)
  }

  /** Grid-aligned inside the canvas, each side one, two or three cells long. */
  predicate WellFormedObstacle(o: Obstacle) {
    && o.x % Cell == 0 && 0 <= o.x <= CanvasWidth - Cell
    && o.y % Cell == 0 && 0 <= o.y <= CanvasHeight - Cell
    && o.width in {40, 80, 120}
    && o.height in {40, 80, 120}
  }

  predicate WellFormedObstacles(obs: seq<Obstacle>) {
    forall i :: 0 <= i < |obs| ==> WellFormedObstacle(obs[i])
  }

  lemma ObstacleFromWellFormed(d: ObstacleDraw)
    requires IsRandomObstacleDraw(d)
    ensures WellFormedObstacle(ObstacleFrom(d))
  {
    var o := ObstacleFrom(d);
    var gx, gy := Pick(d.rx, 20), Pick(d.ry, 15);
    assert o.x == gx * 40 && 0 <= gx < 20;
    assert o.y == gy * 40 && 0 <= gy < 15;
  }

  /** The loop that pushes fifteen obstacles, one per four random values. */
  method GenerateObstacles(draws: seq<ObstacleDraw>) returns (obs: seq<Obstacle>)
    requires |draws| == ObstacleCount
    requires forall i :: 0 <= i < |draws| ==> IsRandomObstacleDraw(draws[i])
    ensures |obs| == ObstacleCount
    ensures WellFormedObstacles(obs)
    ensures forall i :: 0 <= i < |obs| ==> obs[i] == ObstacleFrom(draws[i])
  {
    obs := [];
    var i := 0;
    while i < ObstacleCount
      invariant 0 <= i <= ObstacleCount
      invariant |obs| == i
      invariant forall k :: 0 <= k < i ==> obs[k] == ObstacleFrom(draws[k]) && WellFormedObstacle(obs[k])
    {
      ObstacleFromWellFormed(draws[i]);
      obs := obs + [ObstacleFrom(draws[i])];
      i := i + 1;
    }
  }

  // ----- spawn candidates -----

  /** `getRandomPosition`'s candidate: a point of [0, 800 - size) x [0, 600 - size). */
  function PlayerCandidate(d: Draw, size: nat): (p: Position)
    ensures IsRandomDraw(d) && size < CanvasHeight ==>
      0 <= p.x < CanvasWidth - size && 0 <= p.y < CanvasHeight - size
  {
    Position(Pick(d.rx, CanvasWidth - size), Pick(d.ry, CanvasHeight - size))
  }

  function PlayerCandidates(ds: seq<Draw>, size: nat): (ps: seq<Position>)
    ensures |ps| == |ds|
  {
    seq(|ds|, k requires 0 <= k < |ds| => PlayerCandidate(ds[k], size))
  }

  /** A cheese spot: a cell corner at least one cell away from every edge of the canvas. */
  predicate OnCheeseGrid(p: Position) {
    && p.x % Cell == 0 && Cell <= p.x <= CanvasWidth - 2 * Cell
    && p.y % Cell == 0 && Cell <= p.y <= CanvasHeight - 2 * Cell
  }

  /** `dropACheese`'s candidate. */
  function CheeseCandidate(d: Draw): (p: Position)
    ensures IsRandomDraw(d) ==> OnCheeseGrid(p)
  {
    var gx := Pick(d.rx, (CanvasWidth - Cell * 2) / Cell);
    var gy := Pick(d.ry, (CanvasHeight - Cell * 2) / Cell);
    Position(gx * Cell + Cell, gy * Cell + Cell)
  }

  function CheeseCandidates(ds: seq<Draw>): (ps: seq<Position>)
    ensures |ps| == |ds|
  {
    seq(|ds|, k requires 0 <= k < |ds| => CheeseCandidate(ds[k]))
  }

  // ----- rejection sampling -----

  /** The exit test of the retry loops: the candidate touches no obstacle and no player. */
  predicate Free(p: Position, size: nat, obstacles: seq<Obstacle>, players: seq<Player>) {
    !CollidingWithObstacles(p, size, obstacles) && !CollidingWithPlayers(p, size, players)
  }

  /** The index of the first free candidate, which is where the source's do-while loop stops. */
  function FirstFree(cands: seq<Position>, size: nat, obstacles: seq<Obstacle>, players: seq<Player>): (k: Option<nat>)
    ensures k.Some? ==> k.value < |cands| && Free(cands[k.value], size, obstacles, players)
    decreases |cands|
  {
    if cands == [] then None
    else if Free(cands[0], size, obstacles, players) then Some(0)
    else match FirstFree(cands[1..], size, obstacles, players)
      case None => None
      case Some(j) => Some(j + 1)
  }

  /** No candidate before the one chosen is free, and there is no choice exactly when none is free. */
  lemma {:induction false} FirstFreeIsFirst(cands: seq<Position>, size: nat, obstacles: seq<Obstacle>, players: seq<Player>)
    ensures var k := FirstFree(cands, size, obstacles, players);
      && (k.Some? ==> forall j :: 0 <= j < k.value ==> !Free(cands[j], size, obstacles, players))
      && (k.None? <==> forall j :: 0 <= j < |cands| ==> !Free(cands[j], size, obstacles, players))
    decreases |cands|
  {
    if cands != [] && !Free(cands[0], size, obstacles, players) {
      FirstFreeIsFirst(cands[1..], size, obstacles, players);
      forall j | 1 <= j < |cands| ensures cands[j] == cands[1..][j - 1] { }
    }
  }

  /** The do-while retry loop of `getRandomPosition` and `dropACheese`, run over a finite stream of candidates. */
  method SampleFree(cands: seq<Position>, size: nat, obstacles: seq<Obstacle>, players: seq<Player>)
    returns (k: Option<nat>)
    ensures k == FirstFree(cands, size, obstacles, players)
    ensures k.Some? ==> Free(cands[k.value], size, obstacles, players)
  {
    var i := 0;
    while i < |cands| && !Free(cands[i], size, obstacles, players)
      invariant 0 <= i <= |cands|
      invariant forall j :: 0 <= j < i ==> !Free(cands[j], size, obstacles, players)
    {
      i := i + 1;
    }
    k := if i < |cands| then Some(i) else None;
    FirstFreeIsFirst(cands, size, obstacles, players);
  }

  // ----- cat indexes (server.js assignRoles) -----

  /** `Math.min(2, Math.floor(players.length / 2))`. */
  function CatTarget(n: nat): (k: nat)
    ensures k <= MaxCats && k <= n
    ensures n >= MinPlayersToStart ==> 1 <= k
  {
    if n / 2 < MaxCats then n / 2 else MaxCats
  }

  /**
   * The set the while loop of `assignRoles` collects from the random stream `rs`, starting from
   * `acc`: it adds `Math.floor(r * n)` until the set holds `target` indexes, and has no answer
   * when the stream runs out first.
   */
  function CollectCats(rs: seq<real>, n: nat, target: nat, acc: set<nat>): (r: Option<set<nat>>)
    requires |acc| <= target <= n
    requires forall i :: 0 <= i < |rs| ==> IsRandom(rs[i])
    requires forall c :: c in acc ==> c < n
    ensures r.Some? ==> |r.value| == target && acc <= r.value
    ensures r.Some? ==> forall c :: c in r.value ==> c < n
    decreases |rs|
  {
    if |acc| >= target then Some(acc)
    else if rs == [] then None
    else
      var c := Pick(rs[0], n);
      CollectCats(rs[1..], n, target, acc + {c})
  }

  function CatIndexes(rs: seq<real>, n: nat): (r: Option<set<nat>>)
    requires forall i :: 0 <= i < |rs| ==> IsRandom(rs[i])
  {
    CollectCats(rs, n, CatTarget(n), {})
  }

  /** The while loop of `assignRoles`. */
  method PickCatIndexes(rs: seq<real>, n: nat) returns (cats: set<nat>)
    requires forall i :: 0 <= i < |rs| ==> IsRandom(rs[i])
    requires CatIndexes(rs, n).Some?
    ensures CatIndexes(rs, n) == Some(cats)
    ensures |cats| == CatTarget(n)
    ensures forall c :: c in cats ==> c < n
  {
    cats := {};
    var d := 0;
    while |cats| < CatTarget(n)
      invariant 0 <= d <= |rs|
      invariant |cats| <= CatTarget(n)
      invariant forall c :: c in cats ==> c < n
      invariant CollectCats(rs[d..], n, CatTarget(n), cats) == CatIndexes(rs, n)
      decreases |rs| - d
    {
      assert rs[d..][1..] == rs[d + 1..];
      cats := cats + {Pick(rs[d], n)};
      d := d + 1;
    }
  }
}
