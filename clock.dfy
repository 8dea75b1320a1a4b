/**
 * The cheese schedule of the match clock (the test inside the `setInterval` callback of
 * server.js startGame): a cheese drops when `(300 - gameTime) % Math.floor(30 / mice)` is zero.
 * JavaScript arithmetic is written out: a quotient by zero is Infinity (or NaN for 0 / 0), a
 * remainder by Infinity is the dividend, a remainder by zero or NaN is NaN, and a finite
 * remainder takes the sign of the dividend.
 */
module Clock {
  import opened World

  datatype JsNumber = Finite(v: int) | Infinity | NaN

  /** `Math.floor(a / m)` for non-negative integers. */
  function FloorQuotient(a: nat, m: nat): (q: JsNumber)
    ensures m > 0 ==> q.Finite? && q.v * m <= a < (q.v + 1) * m
    ensures m == 0 && a > 0 ==> q == Infinity
  {
    if m > 0 then Finite(a / m)
    else if a == 0 then NaN
    else Infinity
  }

  /** The `%` of JavaScript on integers: truncated division, the result has the sign of `x`. */
  function TruncRem(x: int, k: int): (r: int)
    requires k != 0
    ensures Abs(r) < Abs(k)
    ensures x >= 0 ==> r >= 0
    ensures x < 0 ==> r <= 0
    ensures (x - r) % Abs(k) == 0
  {
    var m := Abs(k);
    var q, r := Abs(x) / m, Abs(x) % m;
    assert Abs(x) == q * m + r;
    var sq := if x < 0 then -q else q;
    MultipleRem(sq, m);
    assert x - (if x < 0 then -r else r) == sq * m;
    if x < 0 then -r else r
  }

  function Rem(x: int, d: JsNumber): (r: JsNumber)
    ensures d == Infinity ==> r == Finite(x)
    ensures d == NaN || d == Finite(0) ==> r == NaN
  {
    match d
    case NaN => NaN
    case Infinity => Finite(x)
    case Finite(k) => if k == 0 then NaN else Finite(TruncRem(x, k))
  }

  /** A cheese drops on the tick at which `elapsed` seconds of the match have gone, with `mice` mice on the board. */
  predicate DropDue(elapsed: int, mice: nat) {
    Rem(elapsed, FloorQuotient(30, mice)) == Finite(0)
  }

  lemma ProductBounds(k: int, m: int)
    requires k > 0
    ensures m >= 1 ==> k * m >= k
    ensures m <= -1 ==> k * m <= -k
  {
    if m >= 1 {
      assert k * m == k * (m - 1) + k;
    } else if m <= -1 {
      assert k * m == -(k * (-m - 1)) - k;
    }
  }

  /** A multiple of a positive `k` leaves no Euclidean remainder. */
  lemma MultipleRem(q: int, k: int)
    requires k > 0
    ensures (q * k) % k == 0
  {
    var d, r := (q * k) / k, (q * k) % k;
    ProductBounds(k, q - d);
    assert k * (q - d) == r;
  }

  lemma TruncRemZero(x: int, k: int)
    requires k > 0
    ensures TruncRem(x, k) == 0 <==> x % k == 0
  {
    if x < 0 {
      if x % k == 0 {
        assert -x == (-(x / k)) * k;
        MultipleRem(-(x / k), k);
      }
      if (-x) % k == 0 {
        assert x == (-((-x) / k)) * k;
        MultipleRem(-((-x) / k), k);
      }
    }
  }

  /**
   * The schedule in closed form: with one to thirty mice a cheese drops every `30 / mice`
   * seconds (integer division); with more than thirty mice the divisor is zero and none ever
   * drops; with no mice the divisor is Infinity and one drops only at second zero.
   */
  lemma DropDueClosedForm(elapsed: int, mice: nat)
    ensures DropDue(elapsed, mice) <==>
      || (1 <= mice <= 30 && elapsed % (30 / mice) == 0)
      || (mice == 0 && elapsed == 0)
  {
    if 1 <= mice <= 30 {
      TruncRemZero(elapsed, 30 / mice);
    }
  }

  /** Every tick of a match has at least one second gone, so with no mice or more than thirty no cheese drops. */
  lemma NoDropWithoutDivisor(elapsed: int, mice: nat)
    requires elapsed >= 1
    requires mice == 0 || mice > 30
    ensures !DropDue(elapsed, mice)
  {
    DropDueClosedForm(elapsed, mice);
  }

  /** A lone mouse sees a cheese every thirty seconds, two every fifteen, three every ten. */
  lemma DropIntervals(elapsed: int)
    ensures DropDue(elapsed, 1) <==> elapsed % 30 == 0
    ensures DropDue(elapsed, 2) <==> elapsed % 15 == 0
    ensures DropDue(elapsed, 3) <==> elapsed % 10 == 0
  {
    DropDueClosedForm(elapsed, 1);
    DropDueClosedForm(elapsed, 2);
    DropDueClosedForm(elapsed, 3);
  }
}
