/**
 * The server's global state (server.js lines 11-17) as a value, the messages it sends, and every
 * event handler of server.js as a transition from one state to the next. The class in
 * engine.dfy carries out these transitions step by step; the lemmas in server_laws.dfy state
 * what they guarantee.
 */
module ServerModel {
  import opened World
  import opened Geometry
  import opened Spawning
  import opened Movement
  import opened Catches
  import opened CatchLaws
  import opened MatchStart
  import opened Clock

  // ----- messages -----

  /** The fields of a player that go on the wire; `lastMoveTime` is only in `update` messages. */
  datatype PlayerView = PlayerView(
    id: PlayerId,
    ip: string,
    lastMoveTime: Option<int>,
    role: Role,
    score: Score,
    position: Position,
    size: nat)

  datatype Message =
    | AssignedId(id: PlayerId)
    | PlayerList(players: seq<PlayerView>)
    | GameStarted
    | Update(players: seq<PlayerView>, obstacles: seq<Obstacle>, cheeses: seq<Cheese>, gameStarted: bool, gameTime: Option<int>)
    | GameOver(players: seq<PlayerView>, obstacles: seq<Obstacle>, cheeses: seq<Cheese>, gameStarted: bool, winner: Team)

  /** One message sent to every listed player, in list order. */
  datatype Sent = Sent(to: seq<PlayerId>, msg: Message)

  /** A parsed client message: `startGame`, `move` with its direction, or any other type. */
  datatype Request = StartRequest | MoveRequest(direction: Direction) | OtherRequest

  function ListView(p: Player): PlayerView {
    PlayerView(p.id, p.ip, None, p.role, p.score, p.position, p.size)
  }

  function UpdateView(p: Player): PlayerView {
    PlayerView(p.id, p.ip, Some(p.lastMoveTime), p.role, p.score, p.position, p.size)
  }

  function ListViews(ps: seq<Player>): (vs: seq<PlayerView>)
    ensures |vs| == |ps|
  {
    seq(|ps|, i requires 0 <= i < |ps| => ListView(ps[i]))
  }

  function UpdateViews(ps: seq<Player>): (vs: seq<PlayerView>)
    ensures |vs| == |ps|
  {
    seq(|ps|, i requires 0 <= i < |ps| => UpdateView(ps[i]))
  }

  // ----- the state -----

  /**
   * `gameTime` is None until the first match sets it (`let gameTime;`); `timerRunning` says
   * whether the one-second interval is set; `outbox` is every message sent so far, oldest first.
   */
  datatype Server = Server(
    players: seq<Player>,
    obstacles: seq<Obstacle>,
    cheeses: seq<Cheese>,
    gameStarted: bool,
    gameTime: Option<int>,
    timerRunning: bool,
    outbox: seq<Sent>)

  function Initial(): Server {
    Server([], [], [], false, None, false, [])
  }

  /** `notifyPlayers`: the message goes to every player connected now. */
  function Broadcast(s: Server, m: Message): (s': Server)
    ensures s' == s.(outbox := s'.outbox)
    ensures s'.outbox == s.outbox + [Sent(Ids(s.players), m)]
  {
    s.(outbox := s.outbox + [Sent(Ids(s.players), m)])
  }

  function PlayerListOf(s: Server): Message {
    PlayerList(ListViews(s.players))
  }

  function UpdateOf(s: Server): Message {
    Update(UpdateViews(s.players), s.obstacles, s.cheeses, s.gameStarted, s.gameTime)
  }

  /** `updateGameStates`. */
  function Refreshed(s: Server): Server {
    Broadcast(s, UpdateOf(s))
  }

  // ----- checkGameEnd and resetGame -----

  datatype Outcome = Continue | Abandoned | Won(winner: Team)

  /** The tests of `checkGameEnd`, in its order; an unset clock never counts as run out. */
  function Verdict(s: Server): Outcome {
    if !s.gameStarted then Continue
    else if |s.players| == 0 then Abandoned
    else if !HasRole(s.players, Mouse) then Won(Team.Cats)
    else if !HasRole(s.players, Cat) || (s.gameTime.Some? && s.gameTime.value <= 0) then Won(Team.Mice)
    else Continue
  }

  /** `resetGame`: the interval is cleared and the match is over; nothing else is reset. */
  function Stopped(s: Server): Server {
    s.(timerRunning := false, gameStarted := false)
  }

  function GameEnd(s: Server): Server {
    match Verdict(s)
    case Continue => s
    case Abandoned => Stopped(s)
    case Won(t) =>
      var s' := Stopped(s);
      Broadcast(s', GameOver(ListViews(s'.players), s'.obstacles, s'.cheeses, s'.gameStarted, t))
  }

  // ----- connection -----

  function JoinSpot(s: Server, draws: seq<Draw>): Option<nat> {
    FirstFree(PlayerCandidates(draws, MouseSize), MouseSize, s.obstacles, s.players)
  }

  /** A new connection: a scoreless mouse at a free random spot, its id sent to it alone, then the player list to all. */
  function Join(s: Server, id: PlayerId, ip: string, draws: seq<Draw>): Server
    requires JoinSpot(s, draws).Some?
  {
    var spot := PlayerCandidates(draws, MouseSize)[JoinSpot(s, draws).value];
    var p := Player(id, ip, Mouse, Score(0, 0, 0), spot, 0, MouseSize, false);
    var s1 := s.(players := s.players + [p], outbox := s.outbox + [Sent([id], AssignedId(id))]);
    Broadcast(s1, PlayerListOf(s1))
  }

  function Without(ps: seq<Player>, id: PlayerId): seq<Player> {
    match IndexOf(ps, id)
    case None => ps
    case Some(i) => ps[..i] + ps[i + 1..]
  }

  /** A closed connection: the player leaves the list, the others see the new list unless a match is on, then the end test runs. */
  function Leave(s: Server, id: PlayerId): Server {
    var s1 := s.(players := Without(s.players, id));
    var s2 := if !s1.gameStarted then Broadcast(s1, PlayerListOf(s1)) else s1;
    GameEnd(s2)
  }

  // ----- moves and catches -----

  /** `checkCatches`: the catch pass, then the end test. */
  function CatchesChecked(s: Server, now: int): Server {
    var b := CatchPass(s.players, s.cheeses, now);
    GameEnd(s.(players := b.players, cheeses := b.cheeses))
  }

  /** `handleMove`. */
  function Moved(s: Server, id: PlayerId, d: Direction, now: int): Server {
    match IndexOf(s.players, id)
    case None => s
    case Some(i) =>
      if Throttled(s.players[i], now) then s
      else CatchesChecked(s.(players := s.players[i := Attempt(s.players[i], d, now, s.obstacles)]), now)
  }

  // ----- match start -----

  /** The random values one `startGame` consumes: for the cat draw, the obstacles, and each player's respawn. */
  datatype StartDice = StartDice(cats: seq<real>, obstacles: seq<ObstacleDraw>, spawns: seq<seq<Draw>>)

  function ObstacleList(ds: seq<ObstacleDraw>): (obs: seq<Obstacle>)
    ensures |obs| == |ds|
  {
    seq(|ds|, i requires 0 <= i < |ds| => ObstacleFrom(ds[i]))
  }

  /** The dice are random values, and the retry loops of the match start all stop on them. */
  predicate StartPossible(ps: seq<Player>, d: StartDice) {
    && (forall i :: 0 <= i < |d.cats| ==> IsRandom(d.cats[i]))
    && CatIndexes(d.cats, |ps|).Some?
    && |d.obstacles| == ObstacleCount
    && (forall i :: 0 <= i < |d.obstacles| ==> IsRandomObstacleDraw(d.obstacles[i]))
    && |d.spawns| == |ps|
    && (forall k :: 0 <= k < |ps| ==> AllRandom(d.spawns[k]))
    && RespawnFrom(MatchRoster(ps, CatIndexes(d.cats, |ps|).value), ObstacleList(d.obstacles), d.spawns, 0).Some?
  }

  /**
   * `startGame`: announce, reset and draw roles, clear cheese, new obstacles, respawn everyone,
   * broadcast the board (still carrying the previous clock), then set the clock and the interval.
   */
  function Started(s: Server, d: StartDice): Server
    requires !s.gameStarted ==> StartPossible(s.players, d)
  {
    if s.gameStarted then s
    else
      var s1 := Broadcast(s.(gameStarted := true), GameStarted);
      var roster := MatchRoster(s.players, CatIndexes(d.cats, |s.players|).value);
      var obs := ObstacleList(d.obstacles);
      var placed := RespawnFrom(roster, obs, d.spawns, 0).value;
      var s2 := Refreshed(s1.(players := placed, cheeses := [], obstacles := obs));
      s2.(gameTime := Some(MatchSeconds), timerRunning := true)
  }

  // ----- the clock -----

  function CheeseSpot(s: Server, draws: seq<Draw>): Option<nat> {
    FirstFree(CheeseCandidates(draws), CheeseSize, s.obstacles, s.players)
  }

  /** `dropACheese`. */
  function CheeseDropped(s: Server, draws: seq<Draw>): Server
    requires CheeseSpot(s, draws).Some?
  {
    var spot := CheeseCandidates(draws)[CheeseSpot(s, draws).value];
    s.(cheeses := s.cheeses + [Cheese(spot, CheeseSize)])
  }

  /** Whether the tick that brings the clock of `s` down by one second drops a cheese. */
  predicate DropOnTick(s: Server)
    requires s.gameTime.Some?
  {
    DropDue(MatchSeconds - (s.gameTime.value - 1), MiceCount(s.players))
  }

  /** One run of the interval callback: count down, broadcast, maybe drop a cheese, and end the match at zero. */
  function Ticked(s: Server, draws: seq<Draw>): Server
    requires s.gameTime.Some?
    requires DropOnTick(s) ==> CheeseSpot(s, draws).Some?
  {
    var t := s.gameTime.value - 1;
    var s1 := Refreshed(s.(gameTime := Some(t)));
    var s2 := if DropOnTick(s) then CheeseDropped(s1, draws) else s1;
    if t <= 0 then GameEnd(s2.(timerRunning := false)) else s2
  }

  // ----- client messages -----

  /** The `message` handler of a connection. */
  function Handled(s: Server, id: PlayerId, r: Request, now: int, d: StartDice): Server
    requires r == StartRequest && !s.gameStarted && |s.players| >= MinPlayersToStart ==> StartPossible(s.players, d)
  {
    match r
    case StartRequest => if !s.gameStarted && |s.players| >= MinPlayersToStart then Started(s, d) else s
    case MoveRequest(dir) => if s.gameStarted then Refreshed(Moved(s, id, dir, now)) else s
    case OtherRequest => s
  }

  // ----- the invariant -----

  predicate PlayersSound(ps: seq<Player>) {
    forall i :: 0 <= i < |ps| ==> ps[i].size == RoleSize(ps[i].role) && OnCanvas(ps[i].position)
  }

  predicate CheesesSound(cs: seq<Cheese>) {
    forall i :: 0 <= i < |cs| ==> OnCheeseGrid(cs[i].position) && cs[i].size == CheeseSize
  }

  /**
   * What holds between events: ids are unique, every player has its role's size and stands on
   * the canvas, obstacles and cheese are on their grids, the interval runs exactly while a match
   * is on, and a match on has a clock between 1 and 300 and at least one cat and one mouse.
   */
  predicate Inv(s: Server) {
    && UniqueIds(s.players)
    && PlayersSound(s.players)
    && WellFormedObstacles(s.obstacles)
    && CheesesSound(s.cheeses)
    && s.timerRunning == s.gameStarted
    && (s.gameStarted ==>
          && s.gameTime.Some? && 1 <= s.gameTime.value <= MatchSeconds
          && HasRole(s.players, Cat) && HasRole(s.players, Mouse))
  }
}
