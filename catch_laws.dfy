/**
 * What one catch pass guarantees: who may change and how, the scoring laws (every conversion pays
 * exactly five points to exactly one cat, every cheese eaten pays exactly one point to exactly one
 * mouse), and who must be converted.
 */
module CatchLaws {
  import opened World
  import opened Geometry
  import opened Catches

  // ----- sums over the roster -----

  function SumCats(ps: seq<Player>): nat {
    if ps == [] then 0 else SumCats(ps[..|ps| - 1]) + ps[|ps| - 1].score.cats
  }

  function SumMice(ps: seq<Player>): nat {
    if ps == [] then 0 else SumMice(ps[..|ps| - 1]) + ps[|ps| - 1].score.mice
  }

  function MiceCount(ps: seq<Player>): nat {
    if ps == [] then 0 else MiceCount(ps[..|ps| - 1]) + (if ps[|ps| - 1].role == Mouse then 1 else 0)
  }

  lemma {:induction false} SumsAfterUpdate(ps: seq<Player>, i: nat, x: Player)
    requires i < |ps|
    ensures SumCats(ps[i := x]) == SumCats(ps) - ps[i].score.cats + x.score.cats
    ensures SumMice(ps[i := x]) == SumMice(ps) - ps[i].score.mice + x.score.mice
    ensures MiceCount(ps[i := x]) + (if ps[i].role == Mouse then 1 else 0)
         == MiceCount(ps) + (if x.role == Mouse then 1 else 0)
    decreases |ps|
  {
    var n := |ps|;
    var qs := ps[i := x];
    if i == n - 1 {
      assert qs[..n - 1] == ps[..n - 1];
    } else {
      assert qs[..n - 1] == ps[..n - 1][i := x];
      SumsAfterUpdate(ps[..n - 1], i, x);
    }
  }

  // ----- how a player may change during a pass -----

  /**
   * `q` is a later state of `p` in a catch pass: nothing but role, size and score changes; a cat
   * stays a cat of the same size; a converted mouse has the cat size; whoever is still a mouse
   * has the size and cats score it had; scores never go down.
   */
  predicate Evolves(p: Player, q: Player) {
    && q.id == p.id && q.ip == p.ip && q.position == p.position
    && q.lastMoveTime == p.lastMoveTime && q.isCaught == p.isCaught
    && (p.role == Cat ==> q.role == Cat && q.size == p.size)
    && (p.role == Mouse && q.role == Cat ==> q.size == CatSize)
    && (q.role == Mouse ==> p.role == Mouse && q.size == p.size && q.score.cats == p.score.cats)
    && q.score.cats >= p.score.cats && q.score.mice >= p.score.mice
  }

  predicate EvolvesAll(ps: seq<Player>, qs: seq<Player>) {
    |qs| == |ps| && forall k :: 0 <= k < |ps| ==> Evolves(ps[k], qs[k])
  }

  lemma {:induction false} SubsequenceTransitive<T>(a: seq<T>, b: seq<T>, c: seq<T>)
    requires IsSubsequence(a, b) && IsSubsequence(b, c)
    ensures IsSubsequence(a, c)
    decreases |c|
  {
    if c != [] {
      var c' := c[..|c| - 1];
      if IsSubsequence(b, c') {
        SubsequenceTransitive(a, b, c');
      } else {
        var b' := b[..|b| - 1];
        if IsSubsequence(a, b') {
          SubsequenceTransitive(a, b', c');
        } else {
          SubsequenceTransitive(a[..|a| - 1], b', c');
        }
      }
    }
  }

  lemma TurnEvolves(b: Board, i: nat, now: int)
    requires i < |b.players|
    ensures EvolvesAll(b.players, Turn(b, i, now).players)
    ensures IsSubsequence(Turn(b, i, now).cheeses, b.cheeses)
  {
    var ps := b.players;
    if ps[i].role == Cat {
      SubsequenceReflexive(b.cheeses);
      var qs := CatTurn(ps, i, now);
      forall k | 0 <= k < |ps| ensures Evolves(ps[k], qs[k]) {
        if k == i {
          assert qs[k] == Credited(ps[i], CountCatchable(ps, i, |ps|), now);
        } else if Catchable(ps, i, k) {
          assert qs[k] == Converted(ps[k]);
        } else {
          assert qs[k] == ps[k];
        }
      }
    } else {
      var kept := Uncollected(b.cheeses, ps[i]);
      LengthOfSubsequence(kept, b.cheeses);
      var qs := Turn(b, i, now).players;
      forall k | 0 <= k < |ps| ensures Evolves(ps[k], qs[k]) {
        if k == i {
          assert qs[k] == Fed(ps[i], |b.cheeses| - |kept|, now);
        }
      }
    }
  }

  lemma {:induction false} SubsequenceReflexive<T>(a: seq<T>)
    ensures IsSubsequence(a, a)
    decreases |a|
  {
    if a != [] {
      SubsequenceReflexive(a[..|a| - 1]);
    }
  }

  /** Across a whole pass every player evolves, and the cheese left is the old cheese minus some, in order. */
  lemma {:induction false} PassEvolves(b: Board, i: nat, now: int)
    ensures EvolvesAll(b.players, PassFrom(b, i, now).players)
    ensures IsSubsequence(PassFrom(b, i, now).cheeses, b.cheeses)
    decreases |b.players| - i
  {
    if i >= |b.players| {
      SubsequenceReflexive(b.cheeses);
    } else {
      var b1 := Turn(b, i, now);
      TurnEvolves(b, i, now);
      PassEvolves(b1, i + 1, now);
      SubsequenceTransitive(PassFrom(b1, i + 1, now).cheeses, b1.cheeses, b.cheeses);
    }
  }

  /** Every player of the pass's outcome is a later state of the same player, and the cheese only shrinks, in order. */
  lemma CatchPassEvolves(ps: seq<Player>, cs: seq<Cheese>, now: int)
    ensures EvolvesAll(ps, CatchPass(ps, cs, now).players)
    ensures IsSubsequence(CatchPass(ps, cs, now).cheeses, cs)
    ensures forall c :: c in CatchPass(ps, cs, now).cheeses ==> c in cs
  {
    PassEvolves(Board(ps, cs), 0, now);
    var r := CatchPass(ps, cs, now);
    forall c | c in r.cheeses ensures c in cs {
      SubsequenceMembers(r.cheeses, cs, c);
    }
  }

  lemma {:induction false} SubsequenceMembers<T>(a: seq<T>, b: seq<T>, x: T)
    requires IsSubsequence(a, b) && x in a
    ensures x in b
    decreases |b|
  {
    var b' := b[..|b| - 1];
    assert b == b' + [b[|b| - 1]];
    if IsSubsequence(a, b') {
      SubsequenceMembers(a, b', x);
    } else {
      var a' := a[..|a| - 1];
      assert a == a' + [a[|a| - 1]];
      if x in a' { SubsequenceMembers(a', b', x); }
    }
  }

  /** Roles and sizes stay matched (cat 12, mouse 8) through a pass. */
  lemma EvolvesKeepsRoleSizes(ps: seq<Player>, qs: seq<Player>)
    requires EvolvesAll(ps, qs)
    requires forall k :: 0 <= k < |ps| ==> ps[k].size == RoleSize(ps[k].role)
    ensures forall k :: 0 <= k < |qs| ==> qs[k].size == RoleSize(qs[k].role)
  {
  }

  // ----- scoring laws -----

  lemma {:induction false} CatTurnPrefix(ps: seq<Player>, i: nat, now: int, n: nat)
    requires i < |ps| && ps[i].role == Cat && n <= |ps|
    ensures var qs, total := CatTurn(ps, i, now), CountCatchable(ps, i, |ps|);
      && SumCats(qs[..n]) + CatchPoints * MiceCount(qs[..n]) + CatchPoints * CountCatchable(ps, i, n)
         == SumCats(ps[..n]) + CatchPoints * MiceCount(ps[..n]) + (if i < n then CatchPoints * total else 0)
      && SumMice(qs[..n]) == SumMice(ps[..n])
  {
    var qs, total := CatTurn(ps, i, now), CountCatchable(ps, i, |ps|);
    if n > 0 {
      CatTurnPrefix(ps, i, now, n - 1);
      PrefixStep(qs, n);
      PrefixStep(ps, n);
      if n - 1 == i {
        assert !Catchable(ps, i, i);
        assert qs[i] == Credited(ps[i], total, now);
      } else if Catchable(ps, i, n - 1) {
        assert qs[n - 1] == Converted(ps[n - 1]);
      } else {
        assert qs[n - 1] == ps[n - 1];
      }
    }
  }

  /** The sums over a prefix one longer add the last player's share. */
  lemma PrefixStep(ps: seq<Player>, n: nat)
    requires 0 < n <= |ps|
    ensures SumCats(ps[..n]) == SumCats(ps[..n - 1]) + ps[n - 1].score.cats
    ensures SumMice(ps[..n]) == SumMice(ps[..n - 1]) + ps[n - 1].score.mice
    ensures MiceCount(ps[..n]) == MiceCount(ps[..n - 1]) + (if ps[n - 1].role == Mouse then 1 else 0)
  {
    assert ps[..n][..n - 1] == ps[..n - 1];
  }

  /**
   * A pass keeps "cats points plus five per mouse" and "mice points plus cheese on the board":
   * each conversion gives exactly five points to exactly one cat, each cheese removed exactly one
   * point to exactly one mouse.
   */
  lemma {:induction false} PassConservesPoints(b: Board, i: nat, now: int)
    ensures var r := PassFrom(b, i, now);
      && SumCats(r.players) + CatchPoints * MiceCount(r.players) == SumCats(b.players) + CatchPoints * MiceCount(b.players)
      && SumMice(r.players) + |r.cheeses| == SumMice(b.players) + |b.cheeses|
    decreases |b.players| - i
  {
    if i < |b.players| {
      TurnConservesPoints(b, i, now);
      PassConservesPoints(Turn(b, i, now), i + 1, now);
    }
  }

  lemma TurnConservesPoints(b: Board, i: nat, now: int)
    requires i < |b.players|
    ensures var r := Turn(b, i, now);
      && SumCats(r.players) + CatchPoints * MiceCount(r.players) == SumCats(b.players) + CatchPoints * MiceCount(b.players)
      && SumMice(r.players) + |r.cheeses| == SumMice(b.players) + |b.cheeses|
  {
    var ps := b.players;
    if ps[i].role == Cat {
      var qs := CatTurn(ps, i, now);
      CatTurnPrefix(ps, i, now, |ps|);
      assert qs[..|ps|] == qs;
      assert ps[..|ps|] == ps;
    } else {
      var kept := Uncollected(b.cheeses, ps[i]);
      LengthOfSubsequence(kept, b.cheeses);
      var eaten := |b.cheeses| - |kept|;
      SumsAfterUpdate(ps, i, Fed(ps[i], eaten, now));
      assert Turn(b, i, now) == Board(ps[i := Fed(ps[i], eaten, now)], kept);
    }
  }

  lemma CatchPassScoring(ps: seq<Player>, cs: seq<Cheese>, now: int)
    ensures var r := CatchPass(ps, cs, now);
      && MiceCount(r.players) <= MiceCount(ps)
      && SumCats(r.players) == SumCats(ps) + CatchPoints * (MiceCount(ps) - MiceCount(r.players))
      && |r.cheeses| <= |cs|
      && SumMice(r.players) == SumMice(ps) + (|cs| - |r.cheeses|)
  {
    PassConservesPoints(Board(ps, cs), 0, now);
    var r := CatchPass(ps, cs, now);
    CatchPassEvolves(ps, cs, now);
    LengthOfSubsequence(r.cheeses, cs);
    SumCatsMonotone(ps, r.players);
  }

  lemma {:induction false} SumCatsMonotone(ps: seq<Player>, qs: seq<Player>)
    requires EvolvesAll(ps, qs)
    ensures SumCats(qs) >= SumCats(ps)
    decreases |ps|
  {
    if ps != [] {
      var n := |ps|;
      assert EvolvesAll(ps[..n - 1], qs[..n - 1]);
      SumCatsMonotone(ps[..n - 1], qs[..n - 1]);
    }
  }

  // ----- who must change, who must not -----

  /** The invariant behind CaughtMiceBecomeCats, carried from turn `k` on. */
  predicate CatchPending(b: Board, k: nat, i: nat, j: nat, pi: Position, si: nat, pj: Position, sj: nat) {
    && i < |b.players| && j < |b.players|
    && b.players[i].role == Cat && b.players[i].position == pi && b.players[i].size == si
    && InReach(pi, si, pj, sj)
    && (|| (b.players[j].role == Mouse && b.players[j].position == pj && b.players[j].size == sj && k <= i)
        || (b.players[j].role == Cat && b.players[j].size == CatSize))
  }

  lemma {:induction false} PendingCatchHappens(b: Board, k: nat, now: int, i: nat, j: nat, pi: Position, si: nat, pj: Position, sj: nat)
    requires CatchPending(b, k, i, j, pi, si, pj, sj)
    ensures PassFrom(b, k, now).players[j].role == Cat
    ensures PassFrom(b, k, now).players[j].size == CatSize
    decreases |b.players| - k
  {
    if k < |b.players| {
      var b1 := Turn(b, k, now);
      TurnEvolves(b, k, now);
      assert Evolves(b.players[i], b1.players[i]);
      assert Evolves(b.players[j], b1.players[j]);
      if k == i && b.players[j].role == Mouse {
        assert Catchable(b.players, i, j);
        assert b1.players[j] == Converted(b.players[j]);
      }
      assert CatchPending(b1, k + 1, i, j, pi, si, pj, sj);
      PendingCatchHappens(b1, k + 1, now, i, j, pi, si, pj, sj);
    }
  }

  /**
   * A mouse that a cat reaches at the start of the pass ends it as a cat of the cat size, whether
   * that cat or another one got to it first.
   */
  lemma CaughtMiceBecomeCats(ps: seq<Player>, cs: seq<Cheese>, now: int, i: nat, j: nat)
    requires i < |ps| && j < |ps|
    requires ps[i].role == Cat && ps[j].role == Mouse
    requires InReach(ps[i].position, ps[i].size, ps[j].position, ps[j].size)
    ensures CatchPass(ps, cs, now).players[j].role == Cat
    ensures CatchPass(ps, cs, now).players[j].size == CatSize
  {
    PendingCatchHappens(Board(ps, cs), 0, now, i, j, ps[i].position, ps[i].size, ps[j].position, ps[j].size);
  }

  /** Mice whose turn has come reach no cheese left on the board. */
  predicate CheeseClearedUpTo(b: Board, k: nat) {
    forall j, c :: 0 <= j < k && j < |b.players| && c in b.cheeses && b.players[j].role == Mouse
      ==> !ReachesCheese(b.players[j], c)
  }

  lemma TurnClearsCheese(b: Board, k: nat, now: int)
    requires k < |b.players| && CheeseClearedUpTo(b, k)
    ensures CheeseClearedUpTo(Turn(b, k, now), k + 1)
  {
    var b1 := Turn(b, k, now);
    TurnEvolves(b, k, now);
    forall j, c | 0 <= j < k + 1 && c in b1.cheeses && b1.players[j].role == Mouse
      ensures !ReachesCheese(b1.players[j], c)
    {
      assert Evolves(b.players[j], b1.players[j]);
      if j < k {
        SubsequenceMembers(b1.cheeses, b.cheeses, c);
      } else {
        assert b1.cheeses == Uncollected(b.cheeses, b.players[k]);
        UncollectedMembers(b.cheeses, b.players[k]);
      }
    }
  }

  lemma {:induction false} PassClearsCheese(b: Board, k: nat, now: int)
    requires k <= |b.players| && CheeseClearedUpTo(b, k)
    ensures CheeseClearedUpTo(PassFrom(b, k, now), |b.players|)
    decreases |b.players| - k
  {
    if k < |b.players| {
      TurnClearsCheese(b, k, now);
      PassClearsCheese(Turn(b, k, now), k + 1, now);
    }
  }

  /** After the pass, no player who is still a mouse reaches any cheese left on the board. */
  lemma NoMouseReachesCheeseAfterPass(ps: seq<Player>, cs: seq<Cheese>, now: int)
    ensures var r := CatchPass(ps, cs, now);
      forall j, c :: 0 <= j < |r.players| && c in r.cheeses && r.players[j].role == Mouse
        ==> !ReachesCheese(r.players[j], c)
  {
    PassClearsCheese(Board(ps, cs), 0, now);
  }

  lemma {:induction false} NoneCatchable(ps: seq<Player>, i: nat, n: nat)
    requires i < |ps| && n <= |ps|
    requires forall m :: 0 <= m < n ==> !Catchable(ps, i, m)
    ensures CountCatchable(ps, i, n) == 0
  {
    if n > 0 { NoneCatchable(ps, i, n - 1); }
  }

  lemma {:induction false} IdleMouseStays(b: Board, k: nat, now: int, j: nat, p: Player)
    requires j < |b.players| && b.players[j] == p && p.role == Mouse
    requires forall c :: c in b.cheeses ==> !ReachesCheese(p, c)
    ensures PassFrom(b, k, now).players[j].role == Mouse ==> PassFrom(b, k, now).players[j] == p
    decreases |b.players| - k
  {
    if k < |b.players| {
      var b1 := Turn(b, k, now);
      TurnEvolves(b, k, now);
      PassEvolves(b1, k + 1, now);
      if b1.players[j].role == Cat {
        assert Evolves(b1.players[j], PassFrom(b1, k + 1, now).players[j]);
      } else {
        if b.players[k].role == Cat {
          assert !Catchable(b.players, k, j);
          assert b1.players[j] == p;
        } else if k == j {
          UncollectedMembers(b.cheeses, p);
          assert b1.players[j] == p;
        }
        forall c | c in b1.cheeses ensures !ReachesCheese(p, c) {
          SubsequenceMembers(b1.cheeses, b.cheeses, c);
        }
        IdleMouseStays(b1, k + 1, now, j, p);
      }
    }
  }

  /** A mouse that reaches no cheese and is not caught comes out of the pass exactly as it went in. */
  lemma ReachlessMouseUnchanged(ps: seq<Player>, cs: seq<Cheese>, now: int, j: nat)
    requires j < |ps| && ps[j].role == Mouse
    requires forall c :: c in cs ==> !ReachesCheese(ps[j], c)
    requires CatchPass(ps, cs, now).players[j].role == Mouse
    ensures CatchPass(ps, cs, now).players[j] == ps[j]
  {
    IdleMouseStays(Board(ps, cs), 0, now, j, ps[j]);
  }

  predicate NoMouseInReachOf(ps: seq<Player>, p: Player) {
    forall m :: 0 <= m < |ps| && ps[m].role == Mouse ==> !InReach(p.position, p.size, ps[m].position, ps[m].size)
  }

  lemma {:induction false} IdleCatStays(b: Board, k: nat, now: int, j: nat, p: Player)
    requires j < |b.players| && b.players[j] == p && p.role == Cat
    requires NoMouseInReachOf(b.players, p)
    ensures PassFrom(b, k, now).players[j] == p
    decreases |b.players| - k
  {
    if k < |b.players| {
      var b1 := Turn(b, k, now);
      TurnEvolves(b, k, now);
      if b.players[k].role == Cat {
        if k == j {
          NoneCatchable(b.players, j, |b.players|);
        } else {
          assert !Catchable(b.players, k, j);
        }
      }
      assert b1.players[j] == p;
      forall m | 0 <= m < |b1.players| && b1.players[m].role == Mouse
        ensures !InReach(p.position, p.size, b1.players[m].position, b1.players[m].size)
      {
        assert Evolves(b.players[m], b1.players[m]);
      }
      IdleCatStays(b1, k + 1, now, j, p);
    }
  }

  /** A cat that reaches no mouse at the start of the pass comes out of it exactly as it went in. */
  lemma ReachlessCatUnchanged(ps: seq<Player>, cs: seq<Cheese>, now: int, j: nat)
    requires j < |ps| && ps[j].role == Cat
    requires NoMouseInReachOf(ps, ps[j])
    ensures CatchPass(ps, cs, now).players[j] == ps[j]
  {
    IdleCatStays(Board(ps, cs), 0, now, j, ps[j]);
  }
}
