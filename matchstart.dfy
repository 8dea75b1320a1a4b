/**
 * What `startGame` does to the roster (server.js startGame and assignRoles): every player is
 * reset to a scoreless mouse, the drawn indexes become cats, and every player is then moved to
 * a fresh random spot, one after the other, each checked against the roster as it stands.
 */
module MatchStart {
  import opened World
  import opened Geometry
  import opened Spawning

  /** The first `forEach` of `startGame`. */
  function Reset(p: Player): (q: Player)
    ensures q.role == Mouse && q.size == MouseSize && !q.isCaught && q.score == Score(0, 0, 0)
    ensures q.id == p.id && q.ip == p.ip && q.position == p.position && q.lastMoveTime == p.lastMoveTime
  {
    p.(role := Mouse, size := MouseSize, isCaught := false, score := Score(0, 0, 0))
  }

  /** The `catIndexes.forEach` of `assignRoles`. */
  function MadeCat(p: Player): Player {
    p.(role := Cat, size := CatSize)
  }

  /** The roster after the reset and the role assignment, before anyone moves. */
  function MatchRoster(ps: seq<Player>, cats: set<nat>): (qs: seq<Player>)
    ensures |qs| == |ps|
  {
    seq(|ps|, k requires 0 <= k < |ps| => if k in cats then MadeCat(Reset(ps[k])) else Reset(ps[k]))
  }

  /**
   * Exactly the drawn indexes are cats, every player has the size of its role and a zero score,
   * and nothing else about a player changes.
   */
  lemma MatchRosterRoles(ps: seq<Player>, cats: set<nat>)
    ensures var qs := MatchRoster(ps, cats);
      forall k :: 0 <= k < |ps| ==>
        && (qs[k].role == Cat <==> k in cats)
        && qs[k].size == RoleSize(qs[k].role)
        && qs[k].score == Score(0, 0, 0)
        && !qs[k].isCaught
        && qs[k] == ps[k].(role := qs[k].role, size := qs[k].size, score := qs[k].score, isCaught := false)
  {
  }

  /** The first `n` naturals, the index set of a roster of `n` players. */
  function Below(n: nat): (s: set<nat>)
    ensures forall k: nat :: k in s <==> k < n
    ensures |s| == n
  {
    if n == 0 then {} else
      var s := Below(n - 1);
      assert n - 1 !in s;
      s + {n - 1}
  }

  /** A set of fewer indexes than players leaves some player out. */
  lemma {:induction false} SomeIndexLeftOut(cats: set<nat>, n: nat) returns (k: nat)
    requires |cats| < n
    ensures k < n && k !in cats
  {
    var all := Below(n);
    var taken := all * cats;
    assert cats == taken + (cats - all);
    assert all == (all - cats) + taken;
    assert |all - cats| > 0;
    k :| k in all - cats;
  }

  /**
   * With at least two players, the roster of a drawn match holds at least one cat and at least
   * one mouse: at most half the players, and never more than two, are cats.
   */
  lemma DrawnRosterHasBothRoles(ps: seq<Player>, rs: seq<real>)
    requires |ps| >= MinPlayersToStart
    requires forall i :: 0 <= i < |rs| ==> IsRandom(rs[i])
    requires CatIndexes(rs, |ps|).Some?
    ensures var qs := MatchRoster(ps, CatIndexes(rs, |ps|).value);
      HasRole(qs, Cat) && HasRole(qs, Mouse)
  {
    var cats := CatIndexes(rs, |ps|).value;
    var qs := MatchRoster(ps, cats);
    assert 1 <= |cats| < |ps|;
    var c :| c in cats;
    assert qs[c].role == Cat;
    var m := SomeIndexLeftOut(cats, |ps|);
    assert qs[m].role == Mouse;
  }

  // ----- respawn (the second forEach of startGame, calling getRandomPosition(player)) -----

  /**
   * The respawn of players `i`, `i + 1`, ...: player `i` takes the first candidate of its own
   * draws that is free against the new obstacles and against every player's current position
   * (its own old one included); there is no answer when some player's draws run out first.
   */
  function RespawnFrom(ps: seq<Player>, obstacles: seq<Obstacle>, draws: seq<seq<Draw>>, i: nat): (r: Option<seq<Player>>)
    requires |draws| == |ps| && i <= |ps|
    ensures r.Some? ==> |r.value| == |ps|
    decreases |ps| - i
  {
    if i == |ps| then Some(ps)
    else
      var cands := PlayerCandidates(draws[i], ps[i].size);
      match FirstFree(cands, ps[i].size, obstacles, ps)
      case None => None
      case Some(k) => RespawnFrom(ps[i := ps[i].(position := cands[k])], obstacles, draws, i + 1)
  }

  /** A player stands inside the spawn range, clear of every obstacle. */
  predicate Spawned(p: Player, obstacles: seq<Obstacle>) {
    && 0 <= p.position.x < CanvasWidth - p.size
    && 0 <= p.position.y < CanvasHeight - p.size
    && !CollidingWithObstacles(p.position, p.size, obstacles)
  }

  /** The first step of the respawn: player `i` moves to a free spot inside the spawn range. */
  lemma RespawnFirst(ps: seq<Player>, obstacles: seq<Obstacle>, draws: seq<seq<Draw>>, i: nat) returns (ps': seq<Player>)
    requires |draws| == |ps| && i < |ps|
    requires AllRandom(draws[i]) && ps[i].size < CanvasHeight
    requires RespawnFrom(ps, obstacles, draws, i).Some?
    ensures |ps'| == |ps| && ps' == ps[i := ps[i].(position := ps'[i].position)]
    ensures RespawnFrom(ps', obstacles, draws, i + 1) == RespawnFrom(ps, obstacles, draws, i)
    ensures Spawned(ps'[i], obstacles)
  {
    var cands := PlayerCandidates(draws[i], ps[i].size);
    var c :| FirstFree(cands, ps[i].size, obstacles, ps) == Some(c);
    ps' := ps[i := ps[i].(position := cands[c])];
    assert cands[c] == PlayerCandidate(draws[i][c], ps[i].size);
  }

  /** The respawn changes nothing but positions. */
  lemma {:induction false} RespawnOnlyMoves(ps: seq<Player>, obstacles: seq<Obstacle>, draws: seq<seq<Draw>>, i: nat)
    requires |draws| == |ps| && i <= |ps|
    requires RespawnFrom(ps, obstacles, draws, i).Some?
    ensures var qs := RespawnFrom(ps, obstacles, draws, i).value;
      forall k :: 0 <= k < |ps| ==> qs[k] == ps[k].(position := qs[k].position)
    decreases |ps| - i
  {
    if i < |ps| {
      var cands := PlayerCandidates(draws[i], ps[i].size);
      var c :| FirstFree(cands, ps[i].size, obstacles, ps) == Some(c);
      RespawnOnlyMoves(ps[i := ps[i].(position := cands[c])], obstacles, draws, i + 1);
    }
  }

  /** Every player from `i` on stands on a free spot inside the spawn range. */
  lemma {:induction false} RespawnPlacesEveryone(ps: seq<Player>, obstacles: seq<Obstacle>, draws: seq<seq<Draw>>, i: nat)
    requires |draws| == |ps| && i <= |ps|
    requires forall k :: 0 <= k < |ps| ==> AllRandom(draws[k]) && ps[k].size < CanvasHeight
    requires RespawnFrom(ps, obstacles, draws, i).Some?
    ensures var qs := RespawnFrom(ps, obstacles, draws, i).value;
      forall k :: i <= k < |ps| ==> Spawned(qs[k], obstacles)
    decreases |ps| - i
  {
    if i < |ps| {
      var ps' := RespawnFirst(ps, obstacles, draws, i);
      RespawnPlacesEveryone(ps', obstacles, draws, i + 1);
      RespawnKeepsPlaced(ps', obstacles, draws, i + 1);
      assert RespawnFrom(ps', obstacles, draws, i + 1).value[i] == ps'[i];
    }
  }

  /**
   * Each respawned player keeps more than twice its own size away from every player respawned
   * before it (the distance test of isCollidingWithPlayers, against a position that stays put).
   */
  lemma {:induction false} RespawnSeparates(ps: seq<Player>, obstacles: seq<Obstacle>, draws: seq<seq<Draw>>, i: nat)
    requires |draws| == |ps| && i <= |ps|
    requires RespawnFrom(ps, obstacles, draws, i).Some?
    ensures var qs := RespawnFrom(ps, obstacles, draws, i).value;
      forall k, l :: 0 <= k < l < |ps| && i <= l ==>
        SqDist(qs[l].position, qs[k].position) > Sq(2 * qs[l].size)
    decreases |ps| - i
  {
    if i < |ps| {
      var cands := PlayerCandidates(draws[i], ps[i].size);
      var c :| FirstFree(cands, ps[i].size, obstacles, ps) == Some(c);
      var ps' := ps[i := ps[i].(position := cands[c])];
      RespawnSeparates(ps', obstacles, draws, i + 1);
      RespawnKeepsPlaced(ps', obstacles, draws, i + 1);
      var qs := RespawnFrom(ps', obstacles, draws, i + 1).value;
      forall k, l | 0 <= k < l < |ps| && i <= l
        ensures SqDist(qs[l].position, qs[k].position) > Sq(2 * qs[l].size)
      {
        if l == i {
          assert qs[l] == ps'[i] && qs[k] == ps'[k];
          assert !CollidingWithPlayers(ps'[i].position, ps[i].size, ps);
          assert SqDist(ps'[i].position, ps[k].position) > Sq(2 * ps[i].size);
        }
      }
    }
  }

  /** Respawning from `i` leaves players before `i` where they are. */
  lemma {:induction false} RespawnKeepsPlaced(ps: seq<Player>, obstacles: seq<Obstacle>, draws: seq<seq<Draw>>, i: nat)
    requires |draws| == |ps| && i <= |ps|
    requires RespawnFrom(ps, obstacles, draws, i).Some?
    ensures var qs := RespawnFrom(ps, obstacles, draws, i).value;
      forall k :: 0 <= k < i ==> qs[k] == ps[k]
    decreases |ps| - i
  {
    if i < |ps| {
      var cands := PlayerCandidates(draws[i], ps[i].size);
      var c :| FirstFree(cands, ps[i].size, obstacles, ps) == Some(c);
      var ps' := ps[i := ps[i].(position := cands[c])];
      assert RespawnFrom(ps, obstacles, draws, i) == RespawnFrom(ps', obstacles, draws, i + 1);
      RespawnKeepsPlaced(ps', obstacles, draws, i + 1);
      var qs := RespawnFrom(ps', obstacles, draws, i + 1).value;
      forall k | 0 <= k < i ensures qs[k] == ps[k] {
        assert qs[k] == ps'[k];
      }
    }
  }
}
