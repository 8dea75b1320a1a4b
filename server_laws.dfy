/**
 * What the server's event handlers guarantee: every handler keeps the invariant `Inv`, and the
 * handlers' own promises (a match ends when the clock runs out, a match starts from a clean
 * board with the drawn cats, a throttled move only rebroadcasts the board, ...).
 */
module ServerLaws {
  import opened World
  import opened Geometry
  import opened Spawning
  import opened Movement
  import opened Catches
  import opened CatchLaws
  import opened MatchStart
  import opened Clock
  import opened ServerModel

  /** `Inv` without its promise about a match on, which a handler may break until `checkGameEnd` runs. */
  predicate Between(s: Server) {
    && UniqueIds(s.players)
    && PlayersSound(s.players)
    && WellFormedObstacles(s.obstacles)
    && CheesesSound(s.cheeses)
    && s.timerRunning == s.gameStarted
    && (s.gameStarted ==> s.gameTime.Some? && s.gameTime.value <= MatchSeconds)
  }

  /**
   * `checkGameEnd` restores the invariant: a match it lets go on has a cat, a mouse and time
   * left; a match it ends is stopped, and the winner (if any) is announced to everyone still
   * connected. Board and players are untouched.
   */
  lemma GameEndRestores(s: Server)
    requires Between(s)
    requires s.gameStarted ==> s.gameTime.value >= 1
    ensures Inv(GameEnd(s))
    ensures var e := GameEnd(s);
      && e.players == s.players && e.obstacles == s.obstacles && e.cheeses == s.cheeses
      && e.gameTime == s.gameTime
      && (Verdict(s) == Continue ==> e == s)
      && (Verdict(s) != Continue ==> !e.gameStarted && !e.timerRunning)
      && (Verdict(s).Won? ==>
            e.outbox == s.outbox + [Sent(Ids(s.players), GameOver(ListViews(s.players), s.obstacles, s.cheeses, false, Verdict(s).winner))])
      && (Verdict(s) == Abandoned ==> e == Stopped(s) && e.outbox == s.outbox)
  {
  }

  /** A match left with nobody in it is stopped silently: `resetGame` runs and no `gameOver` is sent. */
  lemma AbandonedMatchStopsSilently(s: Server)
    requires s.gameStarted && |s.players| == 0
    ensures Verdict(s) == Abandoned
    ensures GameEnd(s) == s.(gameStarted := false, timerRunning := false)
  {
  }

  /** The checks of `checkGameEnd`, in words: cats win when no mouse is left, mice win when no cat is left or time is up. */
  lemma VerdictCases(s: Server)
    requires s.gameStarted && |s.players| > 0
    ensures Verdict(s) == Won(Team.Cats) <==> !HasRole(s.players, Mouse)
    ensures Verdict(s) == Won(Team.Mice) <==>
      HasRole(s.players, Mouse) && (!HasRole(s.players, Cat) || (s.gameTime.Some? && s.gameTime.value <= 0))
    ensures Verdict(s) == Continue <==>
      HasRole(s.players, Mouse) && HasRole(s.players, Cat) && !(s.gameTime.Some? && s.gameTime.value <= 0)
  {
  }

  // ----- connection -----

  /**
   * A new player is a scoreless mouse appended to the list, at a spot in the spawn range, clear of
   * every obstacle and more than twice its size from every other player; it is told its id,
   * then everyone (it included) gets the new list.
   */
  lemma JoinAddsMouse(s: Server, id: PlayerId, ip: string, draws: seq<Draw>)
    requires AllRandom(draws)
    requires JoinSpot(s, draws).Some?
    ensures var s' := Join(s, id, ip, draws);
      && |s'.players| == |s.players| + 1
      && s'.players[..|s.players|] == s.players
      && var p := s'.players[|s.players|];
      && p.id == id && p.ip == ip && p.role == Mouse && p.size == MouseSize
      && p.score == Score(0, 0, 0) && p.lastMoveTime == 0 && !p.isCaught
      && 0 <= p.position.x < CanvasWidth - MouseSize && 0 <= p.position.y < CanvasHeight - MouseSize
      && !CollidingWithObstacles(p.position, MouseSize, s.obstacles)
      && (forall k :: 0 <= k < |s.players| ==> SqDist(p.position, s.players[k].position) > Sq(2 * MouseSize))
      && s'.outbox == s.outbox + [Sent([id], AssignedId(id)), Sent(Ids(s'.players), PlayerList(ListViews(s'.players)))]
      && s'.obstacles == s.obstacles && s'.cheeses == s.cheeses
      && s'.gameStarted == s.gameStarted && s'.gameTime == s.gameTime && s'.timerRunning == s.timerRunning
  {
    var k := JoinSpot(s, draws).value;
    var spot := PlayerCandidates(draws, MouseSize)[k];
    assert spot == PlayerCandidate(draws[k], MouseSize);
    assert !CollidingWithPlayers(spot, MouseSize, s.players);
  }

  /** A connection with a fresh id keeps the invariant, during a match too (the newcomer joins it as a mouse). */
  lemma JoinKeepsInv(s: Server, id: PlayerId, ip: string, draws: seq<Draw>)
    requires Inv(s)
    requires IndexOf(s.players, id).None?
    requires AllRandom(draws)
    requires JoinSpot(s, draws).Some?
    ensures Inv(Join(s, id, ip, draws))
  {
    JoinAddsMouse(s, id, ip, draws);
    var s' := Join(s, id, ip, draws);
    var p := s'.players[|s.players|];
    assert s'.players == s.players + [p];
    AppendKeepsSound(s.players, p);
    if s.gameStarted {
      var c :| 0 <= c < |s.players| && s.players[c].role == Cat;
      var m :| 0 <= m < |s.players| && s.players[m].role == Mouse;
      assert s'.players[c].role == Cat && s'.players[m].role == Mouse;
    }
  }

  /** A sound player with a new id appended to a sound list with unique ids keeps it so. */
  lemma AppendKeepsSound(ps: seq<Player>, p: Player)
    requires UniqueIds(ps) && PlayersSound(ps)
    requires IndexOf(ps, p.id).None?
    requires p.size == RoleSize(p.role) && OnCanvas(p.position)
    ensures UniqueIds(ps + [p]) && PlayersSound(ps + [p])
  {
  }

  /** Removing the player with a given id keeps the rest of the list in order and all of it sound. */
  lemma WithoutKeeps(ps: seq<Player>, id: PlayerId)
    requires UniqueIds(ps) && PlayersSound(ps)
    ensures var qs := Without(ps, id);
      && UniqueIds(qs) && PlayersSound(qs)
      && (forall q :: q in qs <==> q in ps && q.id != id)
      && |qs| == if IndexOf(ps, id).Some? then |ps| - 1 else |ps|
  {
    match IndexOf(ps, id)
    case None =>
    case Some(i) =>
      RemovedAt(ps, i);
      RemovedAtSound(ps, i);
      RemovedAtMembers(ps, i);
  }

  /** The list without the entry at `i`: the entries before it, then the ones after it, shifted down. */
  lemma RemovedAt(ps: seq<Player>, i: nat)
    requires i < |ps|
    ensures var qs := ps[..i] + ps[i + 1..];
      |qs| == |ps| - 1 && forall k :: 0 <= k < |qs| ==> qs[k] == ps[if k < i then k else k + 1]
  {
  }

  lemma RemovedAtSound(ps: seq<Player>, i: nat)
    requires i < |ps| && UniqueIds(ps) && PlayersSound(ps)
    ensures UniqueIds(ps[..i] + ps[i + 1..]) && PlayersSound(ps[..i] + ps[i + 1..])
  {
    var qs := ps[..i] + ps[i + 1..];
    RemovedAt(ps, i);
    forall a, b | 0 <= a < |qs| && 0 <= b < |qs| && a != b ensures qs[a].id != qs[b].id {
      assert qs[a] == ps[if a < i then a else a + 1];
      assert qs[b] == ps[if b < i then b else b + 1];
    }
    forall k | 0 <= k < |qs| ensures qs[k].size == RoleSize(qs[k].role) && OnCanvas(qs[k].position) {
      assert qs[k] == ps[if k < i then k else k + 1];
    }
  }

  /** With unique ids, removing the entry at `i` removes exactly the entries with its id. */
  lemma RemovedAtMembers(ps: seq<Player>, i: nat)
    requires i < |ps| && UniqueIds(ps)
    ensures forall q :: q in ps[..i] + ps[i + 1..] <==> q in ps && q.id != ps[i].id
  {
    var qs := ps[..i] + ps[i + 1..];
    var id := ps[i].id;
    RemovedAt(ps, i);
    forall q | q in ps && q.id != id ensures q in qs {
      var k :| 0 <= k < |ps| && ps[k] == q;
      if k < i { assert qs[k] == q; } else { assert qs[k - 1] == q; }
    }
    forall q | q in qs ensures q in ps && q.id != id {
      var k :| 0 <= k < |qs| && qs[k] == q;
      var k' := if k < i then k else k + 1;
      assert q == ps[k'] && k' != i;
    }
  }

  /** A closed connection keeps the invariant: if it took the last cat or mouse, the match ends. */
  lemma LeaveKeepsInv(s: Server, id: PlayerId)
    requires Inv(s)
    ensures Inv(Leave(s, id))
    ensures var l := Leave(s, id);
      forall q :: q in l.players <==> q in s.players && q.id != id
  {
    WithoutKeeps(s.players, id);
    var s1 := s.(players := Without(s.players, id));
    var s2 := if !s1.gameStarted then Broadcast(s1, PlayerListOf(s1)) else s1;
    GameEndRestores(s2);
  }

  // ----- moves and catches -----

  /** The catch pass and the end test after it keep the invariant. */
  lemma CatchesKeepInv(s: Server, now: int)
    requires Between(s)
    requires s.gameStarted ==> s.gameTime.value >= 1
    ensures Inv(CatchesChecked(s, now))
  {
    var b := CatchPass(s.players, s.cheeses, now);
    CatchPassEvolves(s.players, s.cheeses, now);
    EvolvesKeepsRoleSizes(s.players, b.players);
    var s1 := s.(players := b.players, cheeses := b.cheeses);
    forall i | 0 <= i < |b.cheeses| ensures OnCheeseGrid(b.cheeses[i].position) && b.cheeses[i].size == CheeseSize {
      var c := b.cheeses[i];
      assert c in s.cheeses;
    }
    assert forall i :: 0 <= i < |b.players| ==> b.players[i].id == s.players[i].id && b.players[i].position == s.players[i].position;
    GameEndRestores(s1);
  }

  /** A move keeps the invariant: the player stays on the canvas and the catch pass keeps the rest. */
  lemma MoveKeepsInv(s: Server, id: PlayerId, d: Direction, now: int)
    requires Inv(s)
    ensures Inv(Moved(s, id, d, now))
  {
    match IndexOf(s.players, id)
    case None =>
    case Some(i) =>
      if !Throttled(s.players[i], now) {
        var p := s.players[i];
        AttemptStaysOnCanvas(p, d, now, s.obstacles);
        var s1 := s.(players := s.players[i := Attempt(p, d, now, s.obstacles)]);
        assert Between(s1);
        CatchesKeepInv(s1, now);
      }
  }

  /** A move attempt within 100 ms of the last accepted one changes nothing; the board is broadcast all the same. */
  lemma ThrottledMoveOnlyRefreshes(s: Server, id: PlayerId, dir: Direction, now: int, d: StartDice)
    requires s.gameStarted
    requires IndexOf(s.players, id).Some? && Throttled(s.players[IndexOf(s.players, id).value], now)
    ensures var s' := Handled(s, id, MoveRequest(dir), now, d);
      && s' == s.(outbox := s'.outbox)
      && s'.outbox == s.outbox + [Sent(Ids(s.players), Update(UpdateViews(s.players), s.obstacles, s.cheeses, true, s.gameTime))]
  {
  }

  /** Whatever the move, the players who are not moving keep their position, and nobody's id changes. */
  lemma MoveMovesOnlyTheMover(s: Server, id: PlayerId, d: Direction, now: int)
    ensures var s' := Moved(s, id, d, now);
      && |s'.players| == |s.players|
      && forall k :: 0 <= k < |s.players| && s.players[k].id != id ==>
           s'.players[k].position == s.players[k].position && s'.players[k].id == s.players[k].id
  {
    match IndexOf(s.players, id)
    case None =>
    case Some(i) =>
      if !Throttled(s.players[i], now) {
        var ps := s.players[i := Attempt(s.players[i], d, now, s.obstacles)];
        var b := CatchPass(ps, s.cheeses, now);
        CatchPassEvolves(ps, s.cheeses, now);
        GameEndKeepsBoard(s.(players := b.players, cheeses := b.cheeses));
        forall k | 0 <= k < |s.players| && s.players[k].id != id
          ensures b.players[k].position == s.players[k].position && b.players[k].id == s.players[k].id
        {
          assert ps[k] == s.players[k];
          assert Evolves(ps[k], b.players[k]);
        }
      }
  }

  /** `checkGameEnd` leaves the players where they are. */
  lemma GameEndKeepsBoard(s: Server)
    ensures GameEnd(s).players == s.players
  {
  }

  // ----- match start -----

  /**
   * A match starts from a clean board: the drawn indexes, exactly `min(2, n / 2)` of them, are
   * the cats; every player has a zero score and its role's size and stands clear of the fifteen
   * new obstacles; there is no cheese; the clock reads 300 and the interval runs. Everyone is
   * told `gameStarted`, then gets a board that still carries the clock as it was before.
   */
  lemma StartedMatchShape(s: Server, d: StartDice)
    requires !s.gameStarted && StartPossible(s.players, d)
    ensures var s' := Started(s, d);
      var cats := CatIndexes(d.cats, |s.players|).value;
      && |cats| == CatTarget(|s.players|)
      && |s'.players| == |s.players|
      && (forall k :: 0 <= k < |s.players| ==>
            && (s'.players[k].role == Cat <==> k in cats)
            && s'.players[k].size == RoleSize(s'.players[k].role)
            && s'.players[k].score == Score(0, 0, 0)
            && s'.players[k].id == s.players[k].id
            && OnCanvas(s'.players[k].position)
            && !CollidingWithObstacles(s'.players[k].position, s'.players[k].size, s'.obstacles))
      && |s'.obstacles| == ObstacleCount && WellFormedObstacles(s'.obstacles)
      && s'.cheeses == []
      && s'.gameStarted && s'.timerRunning && s'.gameTime == Some(MatchSeconds)
      && s'.outbox == s.outbox + [
           Sent(Ids(s.players), GameStarted),
           Sent(Ids(s'.players), Update(UpdateViews(s'.players), s'.obstacles, [], true, s.gameTime))]
  {
    var cats := CatIndexes(d.cats, |s.players|).value;
    var roster := MatchRoster(s.players, cats);
    var obs := ObstacleList(d.obstacles);
    MatchRosterRoles(s.players, cats);
    RespawnPlacesEveryone(roster, obs, d.spawns, 0);
    RespawnOnlyMoves(roster, obs, d.spawns, 0);
    forall i | 0 <= i < |obs| ensures WellFormedObstacle(obs[i]) {
      ObstacleFromWellFormed(d.obstacles[i]);
    }
    var s' := Started(s, d);
    assert s'.players == RespawnFrom(roster, obs, d.spawns, 0).value && s'.obstacles == obs;
  }

  /** A match start from the invariant, with at least two players, reaches the invariant of a match on. */
  lemma StartKeepsInv(s: Server, d: StartDice)
    requires Inv(s)
    requires |s.players| >= MinPlayersToStart && StartPossible(s.players, d)
    ensures Inv(Started(s, d))
  {
    if !s.gameStarted {
      var s' := Started(s, d);
      var cats := CatIndexes(d.cats, |s.players|).value;
      StartedMatchShape(s, d);
      assert 1 <= |cats| < |s.players|;
      var c :| c in cats;
      var m := SomeIndexLeftOut(cats, |s.players|);
      assert s'.players[c].role == Cat && s'.players[m].role == Mouse;
      SameIdsUnique(s.players, s'.players);
    }
  }

  lemma SameIdsUnique(ps: seq<Player>, qs: seq<Player>)
    requires UniqueIds(ps) && |qs| == |ps|
    requires forall k :: 0 <= k < |ps| ==> qs[k].id == ps[k].id
    ensures UniqueIds(qs)
  {
  }

  // ----- the clock -----

  /** A tick keeps the invariant: the clock stays above zero while the match goes on, and a dropped cheese lands on the cheese grid. */
  lemma TickKeepsInv(s: Server, draws: seq<Draw>)
    requires Inv(s) && s.timerRunning
    requires AllRandom(draws)
    requires DropOnTick(s) ==> CheeseSpot(s, draws).Some?
    ensures Inv(Ticked(s, draws))
  {
    var t := s.gameTime.value - 1;
    var s1 := Refreshed(s.(gameTime := Some(t)));
    if DropOnTick(s) {
      var k := CheeseSpot(s1, draws).value;
      assert CheeseCandidates(draws)[k] == CheeseCandidate(draws[k]);
    }
    var s2 := if DropOnTick(s) then CheeseDropped(s1, draws) else s1;
    if t <= 0 {
      GameEndRestores(s2.(timerRunning := false, gameStarted := false));
      assert Verdict(s2.(timerRunning := false)) != Continue;
    }
  }

  /**
   * When the clock runs out with both roles on the board, the mice win: the tick that brings the
   * clock from 1 to 0 stops the match and its last message is a `gameOver` naming the mice.
   */
  lemma TimeUpMiceWin(s: Server, draws: seq<Draw>)
    requires Inv(s) && s.timerRunning && s.gameTime == Some(1)
    requires DropOnTick(s) ==> CheeseSpot(s, draws).Some?
    ensures var s' := Ticked(s, draws);
      && !s'.gameStarted && !s'.timerRunning && s'.gameTime == Some(0)
      && |s'.outbox| > 0 && s'.outbox[|s'.outbox| - 1].msg.GameOver?
      && s'.outbox[|s'.outbox| - 1].msg.winner == Team.Mice
  {
  }

  /** Before the last second, a tick takes one second off the clock and keeps the match on. */
  lemma TickCountsDown(s: Server, draws: seq<Draw>)
    requires Inv(s) && s.timerRunning && s.gameTime.value > 1
    requires DropOnTick(s) ==> CheeseSpot(s, draws).Some?
    ensures var s' := Ticked(s, draws);
      && s'.gameStarted && s'.timerRunning && s'.gameTime == Some(s.gameTime.value - 1)
      && s'.players == s.players && s'.obstacles == s.obstacles
      && |s'.cheeses| == |s.cheeses| + (if DropOnTick(s) then 1 else 0)
      && s'.cheeses[..|s.cheeses|] == s.cheeses
      && (DropOnTick(s) ==>
            var c := s'.cheeses[|s.cheeses|];
            && c.size == CheeseSize
            && Free(c.position, CheeseSize, s.obstacles, s.players)
            && (AllRandom(draws) ==> OnCheeseGrid(c.position)))
  {
    if DropOnTick(s) {
      var k := CheeseSpot(s, draws).value;
      assert CheeseCandidates(draws)[k] == CheeseCandidate(draws[k]);
    }
  }

  /** During a match at least one mouse is on the board, so every tick's drop test has a finite divisor. */
  lemma TickDropSchedule(s: Server)
    requires Inv(s) && s.timerRunning
    ensures MiceCount(s.players) >= 1
    ensures DropOnTick(s) <==>
      MiceCount(s.players) <= 30 && (MatchSeconds - (s.gameTime.value - 1)) % (30 / MiceCount(s.players)) == 0
  {
    var m :| 0 <= m < |s.players| && s.players[m].role == Mouse;
    MiceCountPositive(s.players, m);
    DropDueClosedForm(MatchSeconds - (s.gameTime.value - 1), MiceCount(s.players));
  }

  lemma {:induction false} MiceCountPositive(ps: seq<Player>, m: nat)
    requires m < |ps| && ps[m].role == Mouse
    ensures MiceCount(ps) >= 1
    decreases |ps|
  {
    if m < |ps| - 1 {
      MiceCountPositive(ps[..|ps| - 1], m);
    }
  }

  // ----- client messages -----

  /** Every client message keeps the invariant. */
  lemma HandledKeepsInv(s: Server, id: PlayerId, r: Request, now: int, d: StartDice)
    requires Inv(s)
    requires r == StartRequest && !s.gameStarted && |s.players| >= MinPlayersToStart ==> StartPossible(s.players, d)
    ensures Inv(Handled(s, id, r, now, d))
  {
    match r
    case StartRequest =>
      if !s.gameStarted && |s.players| >= MinPlayersToStart {
        StartKeepsInv(s, d);
      }
    case MoveRequest(dir) =>
      if s.gameStarted {
        MoveKeepsInv(s, id, dir, now);
      }
    case OtherRequest =>
  }

  /** After a `startGame` request a match is on exactly when one already was or at least two players are connected. */
  lemma StartGate(s: Server, id: PlayerId, now: int, d: StartDice)
    requires !s.gameStarted && |s.players| >= MinPlayersToStart ==> StartPossible(s.players, d)
    ensures Handled(s, id, StartRequest, now, d).gameStarted <==> s.gameStarted || |s.players| >= MinPlayersToStart
    ensures !s.gameStarted && |s.players| < MinPlayersToStart ==> Handled(s, id, StartRequest, now, d) == s
  {
  }
}
