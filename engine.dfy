/**
 * The server of server.js as an object: its module-level variables are the fields of `Engine`,
 * and each event handler and helper is a method that updates them in place, in the source's
 * order of statements. Each method is proved to carry out the transition of the same name in
 * server_model.dfy; the public handlers also keep the invariant `Valid`.
 */
module GameServer {
  import opened World
  import opened Geometry
  import opened Spawning
  import opened Movement
  import opened Catches
  import opened CatchLaws
  import opened MatchStart
  import opened Clock
  import opened ServerModel
  import opened ServerLaws

  class Engine {
    var players: seq<Player>
    var obstacles: seq<Obstacle>
    var cheeses: seq<Cheese>
    var gameStarted: bool
    var gameTime: Option<int>
    var timerRunning: bool
    var outbox: seq<Sent>

    function State(): Server
      reads this
    {
      Server(players, obstacles, cheeses, gameStarted, gameTime, timerRunning, outbox)
    }

    predicate Valid()
      reads this
    {
      Inv(State())
    }

    /** The server as it starts listening: no players, no board, no match, no clock. */
    constructor()
      ensures State() == Initial()
      ensures Valid()
    {
      players := [];
      obstacles := [];
      cheeses := [];
      gameStarted := false;
      gameTime := None;
      timerRunning := false;
      outbox := [];
    }

    /** `notifyPlayers`. */
    method Notify(m: Message)
      modifies this
      ensures State() == Broadcast(old(State()), m)
    {
      outbox := outbox + [Sent(Ids(players), m)];
    }

    /** `updateGameStates`. */
    method UpdateGameStates()
      modifies this
      ensures State() == Refreshed(old(State()))
    {
      Notify(UpdateOf(State()));
    }

    /** `resetGame`. */
    method ResetGame()
      modifies this
      ensures State() == Stopped(old(State()))
    {
      timerRunning := false;
      gameStarted := false;
    }

    /** `checkGameEnd`. */
    method CheckGameEnd()
      modifies this
      ensures State() == GameEnd(old(State()))
    {
      if !gameStarted {
        return;
      }
      if |players| == 0 {
        ResetGame();
      } else if !HasRole(players, Mouse) {
        ResetGame();
        Notify(GameOver(ListViews(players), obstacles, cheeses, gameStarted, Team.Cats));
      } else if !HasRole(players, Cat) || (gameTime.Some? && gameTime.value <= 0) {
        ResetGame();
        Notify(GameOver(ListViews(players), obstacles, cheeses, gameStarted, Team.Mice));
      }
    }

    // ----- connection -----

    /** The `connection` handler: spawn a mouse, push it, send it its id, then the list to all. */
    method Connect(id: PlayerId, ip: string, draws: seq<Draw>)
      requires Valid()
      requires IndexOf(players, id).None?
      requires AllRandom(draws)
      requires JoinSpot(State(), draws).Some?
      modifies this
      ensures State() == Join(old(State()), id, ip, draws)
      ensures Valid()
    {
      var cands := PlayerCandidates(draws, MouseSize);
      var k := SampleFree(cands, MouseSize, obstacles, players);
      var p := Player(id, ip, Mouse, Score(0, 0, 0), cands[k.value], 0, MouseSize, false);
      players := players + [p];
      outbox := outbox + [Sent([id], AssignedId(id))];
      Notify(PlayerListOf(State()));
      JoinKeepsInv(old(State()), id, ip, draws);
    }

    /** The `close` handler. */
    method Disconnect(id: PlayerId)
      requires Valid()
      modifies this
      ensures State() == Leave(old(State()), id)
      ensures Valid()
    {
      LeaveKeepsInv(State(), id);
      var index := IndexOf(players, id);
      if index.Some? {
        players := players[..index.value] + players[index.value + 1..];
      }
      assert players == Without(old(players), id);
      if !gameStarted {
        Notify(PlayerListOf(State()));
      }
      CheckGameEnd();
    }

    // ----- client messages -----

    /** The `message` handler. */
    method HandleMessage(id: PlayerId, r: Request, now: int, d: StartDice)
      requires Valid()
      requires r == StartRequest && !gameStarted && |players| >= MinPlayersToStart ==> StartPossible(players, d)
      modifies this
      ensures State() == Handled(old(State()), id, r, now, d)
      ensures Valid()
    {
      match r {
        case StartRequest =>
          if !gameStarted && |players| >= MinPlayersToStart {
            StartGame(d);
          }
        case MoveRequest(dir) =>
          if gameStarted {
            HandleMove(id, dir, now);
            UpdateGameStates();
          }
        case OtherRequest =>
      }
      HandledKeepsInv(old(State()), id, r, now, d);
    }

    /** `handleMove`. */
    method HandleMove(id: PlayerId, dir: Direction, now: int)
      modifies this
      ensures State() == Moved(old(State()), id, dir, now)
    {
      var index := IndexOf(players, id);
      if index.None? {
        return;
      }
      var i := index.value;
      if now - players[i].lastMoveTime < MoveCooldown {
        return;
      }
      players := players[i := Attempt(players[i], dir, now, obstacles)];
      CheckCatches(now);
    }

    // ----- catches -----

    /** `checkCatches`: each player's turn in list order, then the end test. */
    method CheckCatches(now: int)
      modifies this
      ensures State() == CatchesChecked(old(State()), now)
    {
      var i := 0;
      while i < |players|
        invariant 0 <= i <= |players| == |old(players)|
        invariant PassFrom(Board(players, cheeses), i, now) == CatchPass(old(players), old(cheeses), now)
        invariant State() == old(State()).(players := players, cheeses := cheeses)
      {
        ghost var b := Board(players, cheeses);
        if players[i].role == Cat {
          CatchMice(i, now);
        } else {
          EatCheese(i, now);
        }
        assert Board(players, cheeses) == Turn(b, i, now);
        i := i + 1;
      }
      CheckGameEnd();
    }

    /** The turn of catcher `i` while it is a cat: the inner `players.forEach`. */
    method CatchMice(i: nat, now: int)
      requires i < |players| && players[i].role == Cat
      modifies this
      ensures State() == old(State()).(players := CatTurn(old(players), i, now))
    {
      ghost var ps := players;
      var j := 0;
      while j < |players|
        invariant 0 <= j <= |players| == |ps|
        invariant players[i] == Credited(ps[i], CountCatchable(ps, i, j), now)
        invariant forall k :: 0 <= k < |ps| && k != i ==>
          players[k] == if k < j && Catchable(ps, i, k) then Converted(ps[k]) else ps[k]
        invariant State() == old(State()).(players := players)
      {
        TryCatch(ps, i, j, now);
        j := j + 1;
      }
      assert forall k :: 0 <= k < |ps| ==> players[k] == CatTurn(ps, i, now)[k];
    }

    /** One run of the inner callback: catcher `i` converts player `j` if it is a mouse in reach. */
    method TryCatch(ghost ps: seq<Player>, i: nat, j: nat, now: int)
      requires j < |players| == |ps| && i < |ps| && ps[i].role == Cat
      requires players[i] == Credited(ps[i], CountCatchable(ps, i, j), now)
      requires forall k :: 0 <= k < |ps| && k != i ==>
        players[k] == if k < j && Catchable(ps, i, k) then Converted(ps[k]) else ps[k]
      modifies this
      ensures |players| == |ps|
      ensures players[i] == Credited(ps[i], CountCatchable(ps, i, j + 1), now)
      ensures forall k :: 0 <= k < |ps| && k != i ==>
        players[k] == if k < j + 1 && Catchable(ps, i, k) then Converted(ps[k]) else ps[k]
      ensures State() == old(State()).(players := players)
    {
      if players[j].role == Mouse {
        if InReach(players[i].position, players[i].size, players[j].position, players[j].size) {
          var catcher := players[i];
          players := players[i := catcher.(score := catcher.score.(cats := catcher.score.cats + CatchPoints, time := now))];
          players := players[j := players[j].(role := Cat, size := CatSize)];
        }
      }
    }

    /** The turn of player `i` while it is a mouse: `cheeses = cheeses.filter(...)`. */
    method EatCheese(i: nat, now: int)
      requires i < |players| && players[i].role == Mouse
      modifies this
      ensures var b := MouseTurn(Board(old(players), old(cheeses)), i, now);
        State() == old(State()).(players := b.players, cheeses := b.cheeses)
    {
      var fed, kept := FilterCheese(cheeses, players[i], now);
      players := players[i := fed];
      cheeses := kept;
    }

    // ----- match start -----

    /** `startGame`. */
    method StartGame(d: StartDice)
      requires !gameStarted ==> StartPossible(players, d)
      modifies this
      ensures State() == Started(old(State()), d)
    {
      if gameStarted {
        return;
      }
      gameStarted := true;
      Notify(GameStarted);
      SetUpBoard(d);
      UpdateGameStates();
      gameTime := Some(MatchSeconds);
      timerRunning := true;
    }

    /**
     * The part of `startGame` between the announcement and the first broadcast: reset every
     * player, draw the cats, lay the obstacles on an empty board and place everyone.
     */
    method SetUpBoard(d: StartDice)
      requires StartPossible(players, d)
      modifies this
      ensures var roster := MatchRoster(old(players), CatIndexes(d.cats, |old(players)|).value);
        var obs := ObstacleList(d.obstacles);
        State() == old(State()).(players := RespawnFrom(roster, obs, d.spawns, 0).value, cheeses := [], obstacles := obs)
    {
      ghost var cats := CatIndexes(d.cats, |players|).value;
      ghost var ps := players;
      ResetRoster();
      AssignRoles(d.cats);
      assert players == MatchRoster(ps, cats);
      cheeses := [];
      obstacles := GenerateObstacles(d.obstacles);
      assert obstacles == ObstacleList(d.obstacles);
      RespawnAll(d.spawns);
    }

    /** The first `players.forEach` of `startGame`: every player back to a mouse with no score. */
    method ResetRoster()
      modifies this
      ensures |players| == |old(players)|
      ensures forall k :: 0 <= k < |players| ==> players[k] == Reset(old(players)[k])
      ensures State() == old(State()).(players := players)
    {
      var i := 0;
      while i < |players|
        invariant 0 <= i <= |players| == |old(players)|
        invariant forall k :: 0 <= k < |players| ==> players[k] == if k < i then Reset(old(players)[k]) else old(players)[k]
        invariant State() == old(State()).(players := players)
      {
        var p := players[i];
        players := players[i := p.(role := Mouse, size := MouseSize, isCaught := false, score := Score(0, 0, 0))];
        i := i + 1;
      }
    }

    /** `assignRoles`: draw the cat indexes, then make those players cats. */
    method AssignRoles(rs: seq<real>)
      requires forall i :: 0 <= i < |rs| ==> IsRandom(rs[i])
      requires CatIndexes(rs, |players|).Some?
      modifies this
      ensures |players| == |old(players)|
      ensures forall k :: 0 <= k < |players| ==>
        players[k] == if k in CatIndexes(rs, |players|).value then MadeCat(old(players)[k]) else old(players)[k]
      ensures State() == old(State()).(players := players)
    {
      var cats := PickCatIndexes(rs, |players|);
      ghost var ps := players;
      var todo := cats;
      while todo != {}
        invariant todo <= cats
        invariant |players| == |ps|
        invariant forall k :: 0 <= k < |ps| ==> players[k] == if k in cats - todo then MadeCat(ps[k]) else ps[k]
        invariant State() == old(State()).(players := players)
        decreases |todo|
      {
        var c :| c in todo;
        players := players[c := players[c].(role := Cat, size := CatSize)];
        todo := todo - {c};
      }
    }

    /** The second `players.forEach` of `startGame`: each player in turn to a free spot. */
    method RespawnAll(spawns: seq<seq<Draw>>)
      requires |spawns| == |players|
      requires RespawnFrom(players, obstacles, spawns, 0).Some?
      modifies this
      ensures State() == old(State()).(players := RespawnFrom(old(players), old(obstacles), spawns, 0).value)
    {
      var j := 0;
      while j < |players|
        invariant 0 <= j <= |players| == |spawns|
        invariant RespawnFrom(players, obstacles, spawns, j) == RespawnFrom(old(players), old(obstacles), spawns, 0)
        invariant State() == old(State()).(players := players)
      {
        var cands := PlayerCandidates(spawns[j], players[j].size);
        var k := SampleFree(cands, players[j].size, obstacles, players);
        players := players[j := players[j].(position := cands[k.value])];
        j := j + 1;
      }
    }

    // ----- the clock -----

    /** One run of the interval callback. */
    method Tick(draws: seq<Draw>)
      requires Valid() && timerRunning
      requires AllRandom(draws)
      requires DropOnTick(State()) ==> CheeseSpot(State(), draws).Some?
      modifies this
      ensures State() == Ticked(old(State()), draws)
      ensures Valid()
    {
      TickKeepsInv(State(), draws);
      CountDown(draws);
      if gameTime.value <= 0 {
        timerRunning := false;
        CheckGameEnd();
      }
    }

    /** The part of the interval callback before the end check: one second off, a broadcast, maybe a cheese. */
    method CountDown(draws: seq<Draw>)
      requires gameTime.Some?
      requires DropOnTick(State()) ==> CheeseSpot(State(), draws).Some?
      modifies this
      ensures var s1 := Refreshed(old(State()).(gameTime := Some(old(gameTime).value - 1)));
        State() == if DropOnTick(old(State())) then CheeseDropped(s1, draws) else s1
    {
      gameTime := Some(gameTime.value - 1);
      UpdateGameStates();
      if DropDue(MatchSeconds - gameTime.value, MiceCount(players)) {
        DropACheese(draws);
      }
    }

    /** `dropACheese`. */
    method DropACheese(draws: seq<Draw>)
      requires CheeseSpot(State(), draws).Some?
      modifies this
      ensures State() == CheeseDropped(old(State()), draws)
    {
      var cands := CheeseCandidates(draws);
      var k := SampleFree(cands, CheeseSize, obstacles, players);
      cheeses := cheeses + [Cheese(cands[k.value], CheeseSize)];
    }
  }

  /**
   * The filter callback of `checkCatches` run over every cheese: a cheese the mouse reaches is
   * dropped and earns it a point stamped `now`, any other is kept.
   */
  method FilterCheese(cs: seq<Cheese>, mouse: Player, now: int) returns (fed: Player, kept: seq<Cheese>)
    ensures kept == Uncollected(cs, mouse)
    ensures |kept| <= |cs|
    ensures fed == Fed(mouse, |cs| - |kept|, now)
  {
    fed := mouse;
    kept := [];
    var k := 0;
    while k < |cs|
      invariant 0 <= k <= |cs|
      invariant kept == Uncollected(cs[..k], mouse)
      invariant |kept| <= k
      invariant fed == Fed(mouse, k - |kept|, now)
    {
      fed, kept := OfferCheese(cs, mouse, now, k, fed, kept);
      k := k + 1;
    }
    assert cs[..|cs|] == cs;
  }

  /** One run of the filter callback, on the cheese at `k`. */
  method OfferCheese(cs: seq<Cheese>, mouse: Player, now: int, k: nat, fed: Player, kept: seq<Cheese>)
    returns (fed': Player, kept': seq<Cheese>)
    requires k < |cs| && kept == Uncollected(cs[..k], mouse) && |kept| <= k
    requires fed == Fed(mouse, k - |kept|, now)
    ensures kept' == Uncollected(cs[..k + 1], mouse) && |kept'| <= k + 1
    ensures fed' == Fed(mouse, k + 1 - |kept'|, now)
  {
    var target := cs[k];
    assert cs[..k + 1] == cs[..k] + [target];
    UncollectedSnoc(cs[..k], target, mouse);
    fed', kept' := fed, kept;
    if InReach(fed.position, fed.size, target.position, target.size) {
      fed' := fed.(score := fed.score.(mice := fed.score.mice + 1, time := now));
    } else {
      kept' := kept + [target];
    }
  }
}
