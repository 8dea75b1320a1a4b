/** The server's world: its constants, the entities it keeps, and small queries over the player list. */
module World {

  const Speed: int := 10
  const CatSize: nat := 12
  const MouseSize: nat := 8
  const CheeseSize: nat := 10
  const CanvasWidth: int := 800
  const CanvasHeight: int := 600
  const MoveCooldown: int := 100
  const MatchSeconds: int := 300
  const ObstacleCount: nat := 15
  const Cell: int := 40
  const MinPlayersToStart: nat := 2
  const MaxCats: nat := 2
  const CatchPoints: nat := 5

  datatype Option<+T> = None | Some(value: T)

  function Abs(v: int): nat {
    if v < 0 then -v else v
  }

  function Max(a: int, b: int): int { if a < b then b else a }
  function Min(a: int, b: int): int { if a < b then a else b }

  /** `Math.max(lo, Math.min(v, hi))`: `v` moved into `[lo, hi]` when `lo <= hi`. */
  function Clamp(v: int, lo: int, hi: int): int {
    Max(lo, Min(v, hi))
  }

  /** A uuid handed out at connect. */
  type PlayerId = string

  datatype Role = Mouse | Cat
  datatype Team = Cats | Mice
  datatype Position = Position(x: int, y: int)

  /** `cats` and `mice` are the points earned in either role, `time` the clock reading of the last scoring event. */
  datatype Score = Score(cats: nat, mice: nat, time: int)

  datatype Player = Player(
    id: PlayerId,
    ip: string,
    role: Role,
    score: Score,
    position: Position,
    lastMoveTime: int,
    size: nat,
    isCaught: bool)

  datatype Obstacle = Obstacle(x: int, y: int, width: int, height: int)

  datatype Cheese = Cheese(position: Position, size: nat)

  /** A pair of Math.random() values, one per axis. */
  datatype Draw = Draw(rx: real, ry: real)

  predicate IsRandom(r: real) {
    0.0 <= r < 1.0
  }

  predicate IsRandomDraw(d: Draw) {
    IsRandom(d.rx) && IsRandom(d.ry)
  }

  predicate AllRandom(ds: seq<Draw>) {
    forall i :: 0 <= i < |ds| ==> IsRandomDraw(ds[i])
  }

  /** The size a player of role `r` has everywhere in the server. */
  function RoleSize(r: Role): nat {
    if r == Cat then CatSize else MouseSize
  }

  predicate HasRole(ps: seq<Player>, r: Role) {
    exists i :: 0 <= i < |ps| && ps[i].role == r
  }

  function Ids(ps: seq<Player>): (ids: seq<PlayerId>)
    ensures |ids| == |ps|
    ensures forall i :: 0 <= i < |ps| ==> ids[i] == ps[i].id
  {
    seq(|ps|, i requires 0 <= i < |ps| => ps[i].id)
  }

  predicate UniqueIds(ps: seq<Player>) {
    forall i, j :: 0 <= i < |ps| && 0 <= j < |ps| && i != j ==> ps[i].id != ps[j].id
  }

  /** `players.findIndex(p => p.id === id)`: the first index holding `id`, if any. */
  function IndexOf(ps: seq<Player>, id: PlayerId): (r: Option<nat>)
    ensures r.Some? ==> r.value < |ps| && ps[r.value].id == id
    ensures r.Some? ==> forall k :: 0 <= k < r.value ==> ps[k].id != id
    ensures r.None? <==> forall k :: 0 <= k < |ps| ==> ps[k].id != id
    decreases |ps|
  {
    if ps == [] then None
    else if ps[0].id == id then Some(0)
    else match IndexOf(ps[1..], id)
      case None => None
      case Some(k) => Some(k + 1)
  }
}
