/**
 * The client's scoreboard (game.js updateScoreboard and assignMedalClasses): the players of an
 * `update` message are sorted by total score, best first, ties broken by the earlier scoring
 * time; then one pass over the sorted list writes competition ranks and hands out at most three
 * medals.
 */
module Scoreboard {
  import opened World

  /** `''` is `NoMedal`. */
  datatype Medal = Gold | Silver | Bronze | NoMedal

  /**
   * A player row as the client holds it: the score fields of the message, and the `rank` and
   * `medal` properties `assignMedalClasses` may write (None while unwritten).
   */
  datatype Entry = Entry(id: PlayerId, cats: nat, mice: nat, time: int, rank: Option<int>, medal: Option<Medal>)

  function Total(e: Entry): nat {
    e.cats + e.mice
  }

  // ----- the comparator (game.js lines 180-189) -----

  function Compare(p1: Entry, p2: Entry): int {
    if Total(p1) == Total(p2) then p1.time - p2.time else Total(p2) - Total(p1)
  }

  /** `p1` may stand before `p2`: the comparator does not ask to swap them. */
  predicate NotAfter(p1: Entry, p2: Entry) {
    Compare(p1, p2) <= 0
  }

  /** The comparator is the lexicographic order on (higher total first, earlier time first), and it is antisymmetric. */
  lemma CompareIsLexicographic(p1: Entry, p2: Entry)
    ensures NotAfter(p1, p2) <==> Total(p1) > Total(p2) || (Total(p1) == Total(p2) && p1.time <= p2.time)
    ensures Compare(p1, p2) == -Compare(p2, p1)
  {
  }

  /** Any two entries can be ordered, and the order is transitive: the comparator is consistent. */
  lemma NotAfterTotalPreorder(a: Entry, b: Entry, c: Entry)
    ensures NotAfter(a, b) || NotAfter(b, a)
    ensures NotAfter(a, b) && NotAfter(b, c) ==> NotAfter(a, c)
  {
  }

  predicate Sorted(s: seq<Entry>) {
    forall i, j :: 0 <= i < j < |s| ==> NotAfter(s[i], s[j])
  }

  /** On a sorted list totals never go up, and equal totals come in order of time. */
  lemma SortedMeans(s: seq<Entry>)
    requires Sorted(s)
    ensures forall i, j :: 0 <= i < j < |s| ==> Total(s[i]) >= Total(s[j])
    ensures forall i, j :: 0 <= i < j < |s| && Total(s[i]) == Total(s[j]) ==> s[i].time <= s[j].time
  {
  }

  /** The comparator returns 0: same total and same time. */
  predicate Tied(x: Entry, y: Entry) {
    Compare(x, y) == 0
  }

  /** The entries of `s` tied with `e`, in the order they stand in `s`. */
  function TiedWith(s: seq<Entry>, e: Entry): seq<Entry> {
    if s == [] then [] else (if Tied(s[0], e) then [s[0]] else []) + TiedWith(s[1..], e)
  }

  lemma {:induction false} TiedWithAppend(s: seq<Entry>, t: seq<Entry>, e: Entry)
    ensures TiedWith(s + t, e) == TiedWith(s, e) + TiedWith(t, e)
  {
    if s == [] {
      assert s + t == t;
    } else {
      assert (s + t)[0] == s[0];
      assert (s + t)[1..] == s[1..] + t;
      TiedWithAppend(s[1..], t, e);
    }
  }

  /** Entries tied with a common third are tied with each other. */
  lemma TiedTransitive(x: Entry, y: Entry, e: Entry)
    requires Tied(x, e) && Tied(y, e)
    ensures Tied(x, y)
  {
  }

  /** Exchanging two neighbours that are not tied keeps the order within every group of tied entries. */
  lemma SwapKeepsTies(s: seq<Entry>, j: nat)
    requires 0 < j < |s| && !Tied(s[j - 1], s[j])
    ensures forall e :: TiedWith(Swapped(s, j), e) == TiedWith(s, e)
  {
    forall e ensures TiedWith(Swapped(s, j), e) == TiedWith(s, e) {
      SwapKeepsTiesWith(s, j, e);
    }
  }

  lemma SwapKeepsTiesWith(s: seq<Entry>, j: nat, e: Entry)
    requires 0 < j < |s| && !Tied(s[j - 1], s[j])
    ensures TiedWith(Swapped(s, j), e) == TiedWith(s, e)
  {
    var p, r, r' := s[..j - 1], s[j - 1..], Swapped(s, j)[j - 1..];
    var x, y, q := s[j - 1], s[j], s[j + 1..];
    assert s == p + r && Swapped(s, j) == p + r';
    TiedWithAppend(p, r, e);
    TiedWithAppend(p, r', e);
    assert r[0] == x && r[1..][0] == y && r[1..][1..] == q;
    assert r'[0] == y && r'[1..][0] == x && r'[1..][1..] == q;
    if Tied(x, e) && Tied(y, e) {
      TiedTransitive(x, y, e);
    }
  }

  /**
   * `players.sort(comparator)`, in place. The sort is stable, as ECMAScript requires of
   * `Array.prototype.sort` since its 2019 edition: entries the comparator calls equal keep their
   * order. Sorted and stable determine the result; an insertion sort with the same comparator
   * computes it.
   */
  method SortScoreboard(a: array<Entry>)
    modifies a
    ensures Sorted(a[..])
    ensures multiset(a[..]) == multiset(old(a[..]))
    ensures forall e :: TiedWith(a[..], e) == TiedWith(old(a[..]), e)
  {
    var i := 0;
    while i < a.Length
      invariant 0 <= i <= a.Length
      invariant Sorted(a[..i])
      invariant multiset(a[..]) == multiset(old(a[..]))
      invariant forall e :: TiedWith(a[..], e) == TiedWith(old(a[..]), e)
    {
      SinkLast(a, i);
      i := i + 1;
    }
    assert a[..a.Length] == a[..];
  }

  /** The first `hi + 1` entries are in order, except that the one at `j` is only known to precede those after it. */
  predicate SortedAround(s: seq<Entry>, j: nat, hi: nat)
    requires j <= hi < |s|
  {
    && (forall k, l :: 0 <= k < l <= hi && k != j && l != j ==> NotAfter(s[k], s[l]))
    && (forall l :: j < l <= hi ==> NotAfter(s[j], s[l]))
  }

  /** `s` with the entries at `j - 1` and `j` exchanged. */
  function Swapped(s: seq<Entry>, j: nat): (r: seq<Entry>)
    requires 0 < j < |s|
    ensures multiset(r) == multiset(s)
  {
    s[j - 1 := s[j]][j := s[j - 1]]
  }

  /** Exchanging the hole with an entry that should come after it moves the hole one place left. */
  lemma SwapKeepsAround(s: seq<Entry>, j: nat, hi: nat)
    requires 0 < j <= hi < |s| && SortedAround(s, j, hi) && Compare(s[j - 1], s[j]) > 0
    ensures SortedAround(Swapped(s, j), j - 1, hi)
  {
    var r := Swapped(s, j);
    forall l | j - 1 < l <= hi ensures NotAfter(r[j - 1], r[l]) {
      if l > j {
        NotAfterTotalPreorder(s[j], s[j - 1], s[l]);
      }
    }
  }

  /** Moves `a[i]` left past every entry that should come after it, so that `a[..i + 1]` is sorted. */
  method SinkLast(a: array<Entry>, i: nat)
    requires i < a.Length && Sorted(a[..i])
    modifies a
    ensures Sorted(a[..i + 1])
    ensures multiset(a[..]) == multiset(old(a[..]))
    ensures forall e :: TiedWith(a[..], e) == TiedWith(old(a[..]), e)
  {
    var j := i;
    while j > 0 && Compare(a[j - 1], a[j]) > 0
      invariant 0 <= j <= i
      invariant SortedAround(a[..], j, i)
      invariant multiset(a[..]) == multiset(old(a[..]))
      invariant forall e :: TiedWith(a[..], e) == TiedWith(old(a[..]), e)
    {
      SwapDown(a, j, i);
      j := j - 1;
    }
    ghost var s := a[..];
    forall k, l | 0 <= k < l <= i ensures NotAfter(s[k], s[l]) {
      if l == j && k < j - 1 {
        NotAfterTotalPreorder(s[k], s[j - 1], s[j]);
      }
    }
  }

  /** One exchange of the insertion: the entry at `j` moves one place left past an entry that should follow it. */
  method SwapDown(a: array<Entry>, j: nat, i: nat)
    requires 0 < j <= i < a.Length && SortedAround(a[..], j, i) && Compare(a[j - 1], a[j]) > 0
    modifies a
    ensures a[..] == Swapped(old(a[..]), j)
    ensures SortedAround(a[..], j - 1, i)
    ensures multiset(a[..]) == multiset(old(a[..]))
    ensures forall e :: TiedWith(a[..], e) == TiedWith(old(a[..]), e)
  {
    ghost var before := a[..];
    SwapKeepsAround(before, j, i);
    SwapKeepsTies(before, j);
    a[j - 1], a[j] := a[j], a[j - 1];
    assert a[..] == Swapped(before, j);
  }

  // ----- assignMedalClasses (game.js lines 230-258) -----

  /** The loop variables `rank`, `prevTotalScore` and `medalsAssigned`. */
  datatype Tally = Tally(rank: int, prevTotal: int, given: nat)

  /** The medal for `rank` while `given` medals are out. */
  function MedalFor(rank: int, given: nat): Medal {
    if rank == 1 && given < 3 then Gold
    else if rank == 2 && given < 3 then Silver
    else if rank == 3 && given < 3 then Bronze
    else NoMedal
  }

  /** The rank the loop writes for `e` at position `index`: a new total starts a new rank at `index + 1`. */
  function RankAt(t: Tally, e: Entry, index: nat): int {
    if Total(e) != t.prevTotal then index + 1 else t.rank
  }

  /** One iteration of the `forEach`; an entry with total zero is skipped. */
  function Step(t: Tally, e: Entry, index: nat): Tally {
    if Total(e) == 0 then t
    else
      var rank := RankAt(t, e, index);
      var medal := MedalFor(rank, t.given);
      Tally(rank, Total(e), if medal == NoMedal then t.given else t.given + 1)
  }

  /** The loop variables after the first `n` entries. */
  function TallyAfter(s: seq<Entry>, n: nat): Tally
    requires n <= |s|
  {
    if n == 0 then Tally(1, -1, 0) else Step(TallyAfter(s, n - 1), s[n - 1], n - 1)
  }

  /** Entry `e` at position `index` as the loop leaves it, given the loop variables before it. */
  function Marked(t: Tally, e: Entry, index: nat): Entry {
    if Total(e) == 0 then e
    else
      var rank := RankAt(t, e, index);
      e.(rank := Some(rank), medal := Some(MedalFor(rank, t.given)))
  }

  /** The whole list as `assignMedalClasses` leaves it. */
  function AssignMedals(s: seq<Entry>): (r: seq<Entry>)
    ensures |r| == |s|
  {
    seq(|s|, i requires 0 <= i < |s| => Marked(TallyAfter(s, i), s[i], i))
  }

  method AssignMedalClasses(a: array<Entry>)
    modifies a
    ensures a[..] == AssignMedals(old(a[..]))
  {
    ghost var s := a[..];
    var rank := 1;
    var prevTotalScore := -1;
    var medalsAssigned := 0;
    var index := 0;
    while index < a.Length
      invariant 0 <= index <= a.Length
      // the tally is only needed while entries remain
      invariant index < a.Length ==> Tally(rank, prevTotalScore, medalsAssigned) == TallyAfter(s, index)
      invariant forall k {:trigger a[k]} :: 0 <= k < index ==> a[k] == AssignMedals(s)[k]
      invariant forall k {:trigger a[k]} :: index <= k < a.Length ==> a[k] == s[k]
    {
      rank, prevTotalScore, medalsAssigned := MarkAt(a, s, rank, prevTotalScore, medalsAssigned, index);
      index := index + 1;
    }
  }

  method MarkAt(a: array<Entry>, ghost s: seq<Entry>, rank: int, prevTotalScore: int, medalsAssigned: nat, index: nat)
    returns (rank': int, prevTotalScore': int, medalsAssigned': nat)
    requires index < a.Length == |s|
    requires Tally(rank, prevTotalScore, medalsAssigned) == TallyAfter(s, index)
    requires forall k {:trigger a[k]} :: index <= k < a.Length ==> a[k] == s[k]
    modifies a
    ensures Tally(rank', prevTotalScore', medalsAssigned') == TallyAfter(s, index + 1)
    ensures a[index] == AssignMedals(s)[index]
    ensures forall k :: 0 <= k < a.Length && k != index ==> a[k] == old(a[k])
  {
    var marked;
    rank', prevTotalScore', medalsAssigned', marked := MarkEntry(s, rank, prevTotalScore, medalsAssigned, a[index], index);
    a[index] := marked;
  }

  /**
   * The `forEach` callback for `player` at `index`: the loop variables after it, and the entry as
   * the callback leaves it (unchanged when its total is zero).
   */
  method MarkEntry(ghost s: seq<Entry>, rank: int, prevTotalScore: int, medalsAssigned: nat, player: Entry, index: nat)
    returns (rank': int, prevTotalScore': int, medalsAssigned': nat, marked: Entry)
    requires index < |s| && player == s[index]
    requires Tally(rank, prevTotalScore, medalsAssigned) == TallyAfter(s, index)
    ensures Tally(rank', prevTotalScore', medalsAssigned') == TallyAfter(s, index + 1)
    ensures marked == AssignMedals(s)[index]
  {
    rank', prevTotalScore', medalsAssigned', marked := rank, prevTotalScore, medalsAssigned, player;
    var totalScore := player.cats + player.mice;
    if totalScore == 0 {
      return;
    }
    if totalScore != prevTotalScore {
      rank' := index + 1;
    }
    prevTotalScore' := totalScore;
    var medal;
    if rank' == 1 && medalsAssigned < 3 {
      medal := Gold;
      medalsAssigned' := medalsAssigned + 1;
    } else if rank' == 2 && medalsAssigned < 3 {
      medal := Silver;
      medalsAssigned' := medalsAssigned + 1;
    } else if rank' == 3 && medalsAssigned < 3 {
      medal := Bronze;
      medalsAssigned' := medalsAssigned + 1;
    } else {
      medal := NoMedal;
    }
    marked := player.(rank := Some(rank'), medal := Some(medal));
  }

  // ----- what the medal pass guarantees -----

  /** An entry with total zero is left exactly as it was; every other entry gets a rank and a medal (possibly `''`). */
  lemma ZeroTotalsUntouched(s: seq<Entry>, i: nat)
    requires i < |s|
    ensures Total(s[i]) == 0 ==> AssignMedals(s)[i] == s[i]
    ensures Total(s[i]) > 0 ==> AssignMedals(s)[i].rank.Some? && AssignMedals(s)[i].medal.Some?
    ensures AssignMedals(s)[i].id == s[i].id && Total(AssignMedals(s)[i]) == Total(s[i])
  {
  }

  /** Gold goes only to rank 1, silver to rank 2, bronze to rank 3. */
  lemma MedalsMatchRanks(s: seq<Entry>, i: nat)
    requires i < |s| && Total(s[i]) > 0
    ensures var r := AssignMedals(s)[i];
      && (r.medal == Some(Gold) ==> r.rank == Some(1))
      && (r.medal == Some(Silver) ==> r.rank == Some(2))
      && (r.medal == Some(Bronze) ==> r.rank == Some(3))
      && (r.rank.value > 3 ==> r.medal == Some(NoMedal))
  {
  }

  predicate HasMedal(e: Entry) {
    e.medal.Some? && e.medal.value != NoMedal
  }

  /** How many of the first `n` entries hold a medal. */
  function MedalCount(r: seq<Entry>, n: nat): nat
    requires n <= |r|
  {
    if n == 0 then 0 else MedalCount(r, n - 1) + (if HasMedal(r[n - 1]) then 1 else 0)
  }

  lemma {:induction false} MedalCountIsTally(s: seq<Entry>, n: nat)
    requires n <= |s|
    requires forall k :: 0 <= k < |s| ==> s[k].medal.None?
    ensures MedalCount(AssignMedals(s), n) == TallyAfter(s, n).given
    ensures TallyAfter(s, n).given <= 3
  {
    if n > 0 {
      MedalCountIsTally(s, n - 1);
      var t := TallyAfter(s, n - 1);
      assert AssignMedals(s)[n - 1] == Marked(t, s[n - 1], n - 1);
      if Total(s[n - 1]) == 0 {
        assert !HasMedal(AssignMedals(s)[n - 1]);
      } else {
        var medal := MedalFor(RankAt(t, s[n - 1], n - 1), t.given);
        assert HasMedal(AssignMedals(s)[n - 1]) <==> medal != NoMedal;
      }
    }
  }

  /** Rows fresh from a message hold no medal; after the pass at most three do. */
  lemma AtMostThreeMedals(s: seq<Entry>)
    requires forall k :: 0 <= k < |s| ==> s[k].medal.None?
    ensures MedalCount(AssignMedals(s), |s|) <= 3
  {
    MedalCountIsTally(s, |s|);
  }

  // ----- ranks on a sorted list -----

  /** How many entries have a total above `v`. */
  function CountAbove(s: seq<Entry>, v: int): nat {
    if s == [] then 0 else CountAbove(s[..|s| - 1], v) + (if Total(s[|s| - 1]) > v then 1 else 0)
  }

  lemma {:induction false} CountAboveMonotone(s: seq<Entry>, v: int, w: int)
    requires v >= w
    ensures CountAbove(s, v) <= CountAbove(s, w)
    decreases |s|
  {
    if s != [] {
      CountAboveMonotone(s[..|s| - 1], v, w);
    }
  }

  lemma {:induction false} CountAboveAll(s: seq<Entry>, v: int)
    requires forall k :: 0 <= k < |s| ==> Total(s[k]) > v
    ensures CountAbove(s, v) == |s|
    decreases |s|
  {
    if s != [] {
      CountAboveAll(s[..|s| - 1], v);
    }
  }

  /** Entries past `n` with totals at most `v` add nothing to the count. */
  lemma {:induction false} CountAboveTail(s: seq<Entry>, n: nat, v: int)
    requires n <= |s|
    requires forall k :: n <= k < |s| ==> Total(s[k]) <= v
    ensures CountAbove(s, v) == CountAbove(s[..n], v)
    decreases |s|
  {
    if |s| > n {
      assert s[..|s| - 1][..n] == s[..n];
      CountAboveTail(s[..|s| - 1], n, v);
    } else {
      assert s[..n] == s;
    }
  }

  /** On a sorted list, the loop's rank at `i` is one more than the number of entries before `i` with a higher total. */
  lemma {:induction false} RankFromPrefix(s: seq<Entry>, i: nat)
    requires Sorted(s) && i < |s| && Total(s[i]) > 0
    ensures RankAt(TallyAfter(s, i), s[i], i) == 1 + CountAbove(s[..i], Total(s[i]))
    ensures TallyAfter(s, i + 1).rank == RankAt(TallyAfter(s, i), s[i], i)
    ensures TallyAfter(s, i + 1).prevTotal == Total(s[i])
  {
    if i == 0 {
      assert s[..0] == [];
    } else {
      var v := Total(s[i]);
      assert NotAfter(s[i - 1], s[i]);
      RankFromPrefix(s, i - 1);
      assert s[..i][..i - 1] == s[..i - 1];
      if Total(s[i - 1]) != v {
        forall k | 0 <= k < i ensures Total(s[..i][k]) > v {
          assert NotAfter(s[k], s[i]);
        }
        CountAboveAll(s[..i], v);
      }
    }
  }

  /**
   * Competition ranking: on a sorted list every entry with a positive total is ranked one more
   * than the number of entries with a strictly higher total, so equal totals share a rank.
   */
  lemma SortedRanks(s: seq<Entry>, i: nat)
    requires Sorted(s) && i < |s| && Total(s[i]) > 0
    ensures AssignMedals(s)[i].rank == Some(1 + CountAbove(s, Total(s[i])))
  {
    SortedMeans(s);
    RankFromPrefix(s, i);
    CountAboveTail(s, i, Total(s[i]));
  }

  /** On a sorted list, ranks never go down along the list. */
  lemma SortedRanksNonDecreasing(s: seq<Entry>, i: nat, j: nat)
    requires Sorted(s) && i < j < |s| && Total(s[j]) > 0
    ensures Total(s[i]) > 0
    ensures AssignMedals(s)[i].rank.value <= AssignMedals(s)[j].rank.value
  {
    SortedMeans(s);
    SortedRanks(s, i);
    SortedRanks(s, j);
    CountAboveMonotone(s, Total(s[i]), Total(s[j]));
  }

  /** The rank written at `index` never exceeds `index + 1`. */
  lemma {:induction false} RankAtMostPosition(s: seq<Entry>, n: nat)
    requires n <= |s|
    ensures 1 <= TallyAfter(s, n).rank <= if n == 0 then 1 else n
  {
    if n > 0 {
      RankAtMostPosition(s, n - 1);
    }
  }

  /** While every entry so far has a positive total, each of the first three takes a medal and no later one does. */
  lemma {:induction false} GivenCount(s: seq<Entry>, n: nat)
    requires n <= |s|
    requires forall k :: 0 <= k < n ==> Total(s[k]) > 0
    ensures TallyAfter(s, n).given == if n < 3 then n else 3
  {
    if n > 0 {
      GivenCount(s, n - 1);
      RankAtMostPosition(s, n - 1);
      var t := TallyAfter(s, n - 1);
      assert Total(s[n - 1]) > 0;
      var rank := RankAt(t, s[n - 1], n - 1);
      assert 1 <= rank <= n;
      if n - 1 < 3 {
        assert MedalFor(rank, t.given) != NoMedal;
      } else {
        assert MedalFor(rank, t.given) == NoMedal;
      }
    }
  }

  /**
   * On a sorted list the medals go to the first three entries with a positive total, each the
   * medal of its rank; every later entry with a positive total gets `''`.
   */
  lemma SortedMedals(s: seq<Entry>, i: nat)
    requires Sorted(s) && i < |s| && Total(s[i]) > 0
    ensures var r := AssignMedals(s)[i];
      r.medal == Some(if i < 3 then MedalFor(r.rank.value, 0) else NoMedal)
  {
    SortedMeans(s);
    GivenCount(s, i);
    RankAtMostPosition(s, i);
  }
}
