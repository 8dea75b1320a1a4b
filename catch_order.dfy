/**
 * Who scores for a catch, and who cannot be caught (server.js checkCatches). The pass runs the
 * players' turns in list order on one shared roster, so a mouse is converted on exactly one turn:
 * the first turn of a cat that reaches it while it is still a mouse. That cat alone is credited.
 */
module CatchOrder {
  import opened World
  import opened Geometry
  import opened Catches
  import opened CatchLaws

  /**
   * In a cat's turn the catcher gains five points per mouse it converts and, when it converts
   * any, its time becomes `now`; nothing else about it changes, and no other player's score does.
   */
  lemma CatTurnCredits(ps: seq<Player>, i: nat, now: int)
    requires i < |ps| && ps[i].role == Cat
    ensures var qs, n := CatTurn(ps, i, now), CountCatchable(ps, i, |ps|);
      && qs[i].score.cats == ps[i].score.cats + CatchPoints * n
      && qs[i].score.mice == ps[i].score.mice
      && qs[i].score.time == (if n > 0 then now else ps[i].score.time)
      && qs[i] == ps[i].(score := qs[i].score)
      && (forall j :: 0 <= j < |ps| && j != i ==> qs[j].score == ps[j].score)
  {
  }

  /** A mouse the catcher reaches is counted among its conversions. */
  lemma {:induction false} CountedCatch(ps: seq<Player>, i: nat, j: nat, n: nat)
    requires i < |ps| && j < n <= |ps| && Catchable(ps, i, j)
    ensures CountCatchable(ps, i, n) >= 1
  {
    if j < n - 1 {
      CountedCatch(ps, i, j, n - 1);
    }
  }

  /** The board after the turns of players `0 .. k - 1`. */
  function BoardBefore(b: Board, k: nat, now: int): (r: Board)
    requires k <= |b.players|
    ensures |r.players| == |b.players|
  {
    if k == 0 then b else Turn(BoardBefore(b, k - 1, now), k - 1, now)
  }

  /** The whole pass is the first `k` turns followed by the rest. */
  lemma {:induction false} PassThrough(b: Board, k: nat, now: int)
    requires k <= |b.players|
    ensures PassFrom(b, 0, now) == PassFrom(BoardBefore(b, k, now), k, now)
  {
    if k > 0 {
      PassThrough(b, k - 1, now);
      var prev := BoardBefore(b, k - 1, now);
      assert BoardBefore(b, k, now) == Turn(prev, k - 1, now);
      assert PassFrom(prev, k - 1, now) == PassFrom(Turn(prev, k - 1, now), k, now);
    }
  }

  /** No turn turns a cat back into a mouse. */
  lemma TurnKeepsCat(b: Board, i: nat, now: int, j: nat)
    requires i < |b.players| && j < |b.players| && b.players[j].role == Cat
    ensures Turn(b, i, now).players[j].role == Cat
  {
    TurnEvolves(b, i, now);
    assert Evolves(b.players[j], Turn(b, i, now).players[j]);
  }

  /** A player that is a cat after some turn is a cat after every later one. */
  lemma {:induction false} StaysCat(b: Board, k: nat, l: nat, now: int, j: nat)
    requires k <= l <= |b.players| && j < |b.players|
    requires BoardBefore(b, k, now).players[j].role == Cat
    ensures BoardBefore(b, l, now).players[j].role == Cat
    decreases l - k
  {
    if k < l {
      StaysCat(b, k, l - 1, now, j);
      TurnKeepsCat(BoardBefore(b, l - 1, now), l - 1, now, j);
    }
  }

  /** Turn `k` converts `j`: the player whose turn it is is a cat and reaches `j` while `j` is a mouse. */
  predicate CatchesOnTurn(b: Board, now: int, k: nat, j: nat)
    requires k < |b.players| && j < |b.players|
  {
    var bk := BoardBefore(b, k, now);
    bk.players[k].role == Cat && Catchable(bk.players, k, j)
  }

  /** The turn after which `j`, a mouse before it, is a cat. */
  lemma {:induction false} FindSwitch(b: Board, now: int, j: nat, k: nat) returns (m: nat)
    requires j < |b.players| && k <= |b.players|
    requires BoardBefore(b, k, now).players[j].role == Mouse
    requires BoardBefore(b, |b.players|, now).players[j].role == Cat
    ensures k <= m < |b.players|
    ensures BoardBefore(b, m, now).players[j].role == Mouse
    ensures BoardBefore(b, m + 1, now).players[j].role == Cat
    decreases |b.players| - k
  {
    if BoardBefore(b, k + 1, now).players[j].role == Cat {
      m := k;
    } else {
      m := FindSwitch(b, now, j, k + 1);
    }
  }

  /** The turn after which `j` is a cat, having been a mouse before it, is a cat's turn that reaches `j`. */
  lemma SwitchIsCatch(b: Board, now: int, j: nat, i: nat)
    requires i < |b.players| && j < |b.players|
    requires BoardBefore(b, i, now).players[j].role == Mouse
    requires BoardBefore(b, i + 1, now).players[j].role == Cat
    ensures CatchesOnTurn(b, now, i, j)
  {
    var before := BoardBefore(b, i, now);
    if before.players[i].role == Mouse {
      assert false;
    }
    if !Catchable(before.players, i, j) {
      assert false;
    }
  }

  /** A cat's turn that reaches `j` leaves `j` a cat. */
  lemma CatchConverts(b: Board, now: int, k: nat, j: nat)
    requires k < |b.players| && j < |b.players| && CatchesOnTurn(b, now, k, j)
    ensures BoardBefore(b, k + 1, now).players[j] == Converted(BoardBefore(b, k, now).players[j])
  {
  }

  /** Turn `k` cannot catch `j` when another turn `i` does. */
  lemma NotCaughtTwice(b: Board, now: int, j: nat, i: nat, k: nat)
    requires i < |b.players| && k < |b.players| && j < |b.players| && k != i
    requires CatchesOnTurn(b, now, i, j)
    ensures !CatchesOnTurn(b, now, k, j)
  {
    CatchConverts(b, now, i, j);
    if k < i {
      if BoardBefore(b, k, now).players[j].role == Cat {
        StaysCat(b, k, i, now, j);
      } else if CatchesOnTurn(b, now, k, j) {
        CatchConverts(b, now, k, j);
        StaysCat(b, k + 1, i, now, j);
      }
    } else {
      StaysCat(b, i + 1, k, now, j);
    }
  }

  /** Once a cat's turn has caught `j`, no other turn of the pass does. */
  lemma CaughtOnce(b: Board, now: int, j: nat, i: nat)
    requires i < |b.players| && j < |b.players| && CatchesOnTurn(b, now, i, j)
    ensures forall k :: 0 <= k < |b.players| && k != i ==> !CatchesOnTurn(b, now, k, j)
  {
    forall k | 0 <= k < |b.players| && k != i ensures !CatchesOnTurn(b, now, k, j) {
      NotCaughtTwice(b, now, j, i, k);
    }
  }

  /**
   * A mouse that the pass turns into a cat is caught on exactly one turn `i`: the cat whose turn
   * it is reaches it, no other turn's cat does while it is still a mouse, and that turn converts
   * it and credits that cat alone, five points per conversion with the time `now`.
   */
  lemma ConvertedOnce(ps: seq<Player>, cs: seq<Cheese>, now: int, j: nat) returns (i: nat)
    requires j < |ps| && ps[j].role == Mouse
    requires CatchPass(ps, cs, now).players[j].role == Cat
    ensures i < |ps|
    ensures CatchesOnTurn(Board(ps, cs), now, i, j)
    ensures forall k :: 0 <= k < |ps| && k != i ==> !CatchesOnTurn(Board(ps, cs), now, k, j)
    ensures var before, after := BoardBefore(Board(ps, cs), i, now).players, BoardBefore(Board(ps, cs), i + 1, now).players;
      && after[j] == Converted(before[j])
      && after[i].score.cats >= before[i].score.cats + CatchPoints
      && after[i].score.time == now
      && (forall k :: 0 <= k < |ps| && k != i ==> after[k].score == before[k].score)
  {
    var b := Board(ps, cs);
    PassThrough(b, |ps|, now);
    i := FindSwitch(b, now, j, 0);
    SwitchIsCatch(b, now, j, i);
    CaughtOnce(b, now, j, i);
    var before := BoardBefore(b, i, now).players;
    assert BoardBefore(b, i + 1, now).players == CatTurn(before, i, now);
    CatTurnCredits(before, i, now);
    CountedCatch(before, i, j, |ps|);
  }

  /**
   * Over the rest of a pass, a mouse that reaches no cheese stays exactly as it is when no cat
   * reaches it and no other player, were it converted to a cat where it stands, would reach it.
   */
  lemma {:induction false} UnreachedMouseStays(b: Board, k: nat, now: int, j: nat, p: Player)
    requires j < |b.players| && b.players[j] == p && p.role == Mouse
    requires forall c :: c in b.cheeses ==> !ReachesCheese(p, c)
    requires forall m :: 0 <= m < |b.players| && m != j && b.players[m].role == Cat ==>
      !InReach(b.players[m].position, b.players[m].size, p.position, p.size)
    requires forall m :: 0 <= m < |b.players| && m != j ==> !InReach(b.players[m].position, CatSize, p.position, p.size)
    ensures PassFrom(b, k, now).players[j] == p
    decreases |b.players| - k
  {
    if k < |b.players| {
      var b1 := Turn(b, k, now);
      TurnEvolves(b, k, now);
      if b.players[k].role == Cat {
        assert !Catchable(b.players, k, j);
        assert b1.players[j] == p;
      } else if k == j {
        UncollectedMembers(b.cheeses, p);
        assert b1.players[j] == p;
      }
      forall c | c in b1.cheeses ensures !ReachesCheese(p, c) {
        SubsequenceMembers(b1.cheeses, b.cheeses, c);
      }
      forall m | 0 <= m < |b1.players| && m != j && b1.players[m].role == Cat
        ensures !InReach(b1.players[m].position, b1.players[m].size, p.position, p.size)
      {
        assert Evolves(b.players[m], b1.players[m]);
      }
      forall m | 0 <= m < |b1.players| && m != j
        ensures !InReach(b1.players[m].position, CatSize, p.position, p.size)
      {
        assert Evolves(b.players[m], b1.players[m]);
      }
      UnreachedMouseStays(b1, k + 1, now, j, p);
    }
  }

  /**
   * On a roster whose cats have the cat size, a mouse that reaches no cheese and that no player
   * could reach at the cat size comes out of the pass exactly as it went in: still a mouse, with
   * the same score.
   */
  lemma OutOfReachMouseUnchanged(ps: seq<Player>, cs: seq<Cheese>, now: int, j: nat)
    requires j < |ps| && ps[j].role == Mouse
    requires forall m :: 0 <= m < |ps| && ps[m].role == Cat ==> ps[m].size == CatSize
    requires forall m :: 0 <= m < |ps| && m != j ==> !InReach(ps[m].position, CatSize, ps[j].position, ps[j].size)
    requires forall c :: c in cs ==> !ReachesCheese(ps[j], c)
    ensures CatchPass(ps, cs, now).players[j] == ps[j]
  {
    UnreachedMouseStays(Board(ps, cs), 0, now, j, ps[j]);
  }
}
