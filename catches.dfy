/**
 * The catch pass of the server (server.js checkCatches) as a specification: one turn per player
 * in list order, where a player who is a cat when its turn comes converts every mouse it reaches
 * and a player who is a mouse eats every cheese it reaches. The role is read when the turn
 * comes, so a mouse converted earlier in the pass takes its turn as a cat.
 */
module Catches {
  import opened World
  import opened Geometry

  datatype Board = Board(players: seq<Player>, cheeses: seq<Cheese>)

  // ----- a cat's turn -----

  /** In state `ps`, the inner loop of catcher `i` converts player `j`. */
  predicate Catchable(ps: seq<Player>, i: nat, j: nat)
    requires i < |ps| && j < |ps|
  {
    ps[j].role == Mouse && InReach(ps[i].position, ps[i].size, ps[j].position, ps[j].size)
  }

  /** How many of the first `n` players catcher `i` converts. */
  function CountCatchable(ps: seq<Player>, i: nat, n: nat): nat
    requires i < |ps| && n <= |ps|
  {
    if n == 0 then 0 else CountCatchable(ps, i, n - 1) + (if Catchable(ps, i, n - 1) then 1 else 0)
  }

  function Converted(p: Player): Player {
    p.(role := Cat, size := CatSize)
  }

  /** The catcher after `catches` conversions: five points each, stamped with `now`. */
  function Credited(p: Player, catches: nat, now: int): Player {
    if catches == 0 then p
    else p.(score := p.score.(cats := p.score.cats + CatchPoints * catches, time := now))
  }

  function CatTurn(ps: seq<Player>, i: nat, now: int): (qs: seq<Player>)
    requires i < |ps|
    ensures |qs| == |ps|
  {
    var n := CountCatchable(ps, i, |ps|);
    seq(|ps|, j requires 0 <= j < |ps| =>
      if j == i then Credited(ps[i], n, now)
      else if Catchable(ps, i, j) then Converted(ps[j])
      else ps[j])
  }

  // ----- a mouse's turn -----

  /** `a` arises from `b` by deleting elements, the rest keeping their order. */
  predicate IsSubsequence<T(==)>(a: seq<T>, b: seq<T>)
    decreases |b|
  {
    if b == [] then a == []
    else
      || IsSubsequence(a, b[..|b| - 1])
      || (a != [] && a[|a| - 1] == b[|b| - 1] && IsSubsequence(a[..|a| - 1], b[..|b| - 1]))
  }

  predicate ReachesCheese(m: Player, c: Cheese) {
    InReach(m.position, m.size, c.position, c.size)
  }

  /** `cheeses.filter(...)` for mouse `m`. */
  function Uncollected(cs: seq<Cheese>, m: Player): (kept: seq<Cheese>)
    ensures IsSubsequence(kept, cs)
    decreases |cs|
  {
    if cs == [] then []
    else
      var init, last := cs[..|cs| - 1], cs[|cs| - 1];
      var rest := Uncollected(init, m);
      assert cs[..|cs| - 1] == init;
      if ReachesCheese(m, last) then rest
      else
        assert (rest + [last])[..|rest|] == rest;
        rest + [last]
  }

  /**
   * The cheese kept is exactly the cheese the mouse does not reach; when it reaches none, the
   * list is unchanged.
   */
  lemma {:induction false} UncollectedMembers(cs: seq<Cheese>, m: Player)
    ensures forall c :: c in Uncollected(cs, m) <==> c in cs && !ReachesCheese(m, c)
    ensures (forall c :: c in cs ==> !ReachesCheese(m, c)) ==> Uncollected(cs, m) == cs
    decreases |cs|
  {
    if cs != [] {
      var init := cs[..|cs| - 1];
      assert cs == init + [cs[|cs| - 1]];
      UncollectedMembers(init, m);
    }
  }

  /** Filtering one more cheese: it is kept exactly when the mouse does not reach it. */
  lemma UncollectedSnoc(cs: seq<Cheese>, c: Cheese, m: Player)
    ensures Uncollected(cs + [c], m) == if ReachesCheese(m, c) then Uncollected(cs, m) else Uncollected(cs, m) + [c]
  {
    assert (cs + [c])[..|cs|] == cs;
  }

  /** The filter works piecewise: filtering a concatenation filters each part, in order. */
  lemma {:induction false} UncollectedAppend(a: seq<Cheese>, b: seq<Cheese>, m: Player)
    ensures Uncollected(a + b, m) == Uncollected(a, m) + Uncollected(b, m)
    decreases |b|
  {
    if b == [] {
      assert a + b == a;
    } else {
      var init, last := b[..|b| - 1], b[|b| - 1];
      assert b == init + [last];
      assert a + b == (a + init) + [last];
      UncollectedAppend(a, init, m);
      UncollectedSnoc(a + init, last, m);
      UncollectedSnoc(init, last, m);
      var u, v := Uncollected(a, m), Uncollected(init, m);
      if !ReachesCheese(m, last) {
        assert (u + v) + [last] == u + (v + [last]);
      }
    }
  }

  /** The mouse after eating `eaten` cheeses: one point each, stamped with `now`. */
  function Fed(p: Player, eaten: nat, now: int): Player {
    if eaten == 0 then p
    else p.(score := p.score.(mice := p.score.mice + eaten, time := now))
  }

  function MouseTurn(b: Board, i: nat, now: int): (b': Board)
    requires i < |b.players|
    ensures |b'.players| == |b.players|
  {
    var kept := Uncollected(b.cheeses, b.players[i]);
    LengthOfSubsequence(kept, b.cheeses);
    Board(b.players[i := Fed(b.players[i], |b.cheeses| - |kept|, now)], kept)
  }

  lemma {:induction false} LengthOfSubsequence<T>(a: seq<T>, b: seq<T>)
    requires IsSubsequence(a, b)
    ensures |a| <= |b|
    decreases |b|
  {
    if b != [] {
      if IsSubsequence(a, b[..|b| - 1]) {
        LengthOfSubsequence(a, b[..|b| - 1]);
      } else {
        LengthOfSubsequence(a[..|a| - 1], b[..|b| - 1]);
      }
    }
  }

  // ----- the pass -----

  function Turn(b: Board, i: nat, now: int): (b': Board)
    requires i < |b.players|
    ensures |b'.players| == |b.players|
  {
    if b.players[i].role == Cat then Board(CatTurn(b.players, i, now), b.cheeses)
    else MouseTurn(b, i, now)
  }

  /** The turns of players `i`, `i + 1`, ... in list order. */
  function PassFrom(b: Board, i: nat, now: int): (b': Board)
    ensures |b'.players| == |b.players|
    decreases |b.players| - i
  {
    if i >= |b.players| then b else PassFrom(Turn(b, i, now), i + 1, now)
  }

  function CatchPass(ps: seq<Player>, cs: seq<Cheese>, now: int): Board {
    PassFrom(Board(ps, cs), 0, now)
  }
}
