/**
 * The two pure rules of the browser client that are not about the scoreboard: the countdown text
 * written by `updateTimerDisplay` (game.js lines 168-171) and the start-button rule of
 * `handlePlayerList` (game.js lines 160-164), tied to the server's own start gate.
 */
module ClientView {
  import opened World
  import opened Clock
  import opened ServerModel

  // ----- decimal text -----

  predicate IsDigit(c: char) {
    '0' <= c <= '9'
  }

  predicate IsDigits(s: string) {
    forall i :: 0 <= i < |s| ==> IsDigit(s[i])
  }

  function DigitChar(d: nat): (c: char)
    requires d < 10
    ensures IsDigit(c) && c as int - '0' as int == d
  {
    (d + '0' as int) as char
  }

  /** The number a string of decimal digits denotes; leading zeros are allowed. */
  function ValueOf(s: string): nat
    requires IsDigits(s)
  {
    if s == [] then 0 else 10 * ValueOf(s[..|s| - 1]) + (s[|s| - 1] as int - '0' as int)
  }

  /** `Number.prototype.toString()` on a non-negative integer. */
  function NatToString(n: nat): string
  {
    if n < 10 then [DigitChar(n)] else NatToString(n / 10) + [DigitChar(n % 10)]
  }

  /** `toString()` on any integer: a minus sign before the digits of a negative one. */
  function IntToString(i: int): string {
    if i < 0 then "-" + NatToString(-i) else NatToString(i)
  }

  /** `padStart(2, '0')`. */
  function PadStart2(s: string): string {
    if |s| >= 2 then s else seq(2 - |s|, _ => '0') + s
  }

  lemma {:induction false} NatToStringDenotes(n: nat)
    ensures IsDigits(NatToString(n)) && |NatToString(n)| >= 1
    ensures ValueOf(NatToString(n)) == n
    ensures n < 10 ==> |NatToString(n)| == 1
    ensures n < 100 ==> |NatToString(n)| <= 2
  {
    if n >= 10 {
      NatToStringDenotes(n / 10);
      var s := NatToString(n / 10) + [DigitChar(n % 10)];
      assert s[..|s| - 1] == NatToString(n / 10);
    }
  }

  /** A zero in front does not change the number. */
  lemma {:induction false} LeadingZero(s: string)
    requires IsDigits(s)
    ensures IsDigits("0" + s) && ValueOf("0" + s) == ValueOf(s)
    decreases |s|
  {
    if s != [] {
      var t := "0" + s;
      assert t[..|t| - 1] == "0" + s[..|s| - 1];
      LeadingZero(s[..|s| - 1]);
    }
  }

  /** Padding keeps the digits' value and makes the text at least two long; text of two or more is unchanged. */
  lemma PadKeepsValue(s: string)
    requires IsDigits(s) && |s| >= 1
    ensures IsDigits(PadStart2(s)) && ValueOf(PadStart2(s)) == ValueOf(s)
    ensures |PadStart2(s)| == if |s| >= 2 then |s| else 2
  {
    if |s| < 2 {
      assert PadStart2(s) == "0" + s;
      LeadingZero(s);
    }
  }

  // ----- the countdown -----

  /** The text before the clock: "倒计时 ". */
  const TimerLabel: string := "\U{5012}\U{8BA1}\U{65F6} "

  /**
   * Minutes and seconds of the countdown. `Math.floor(t / 60)` is Dafny's division by a positive
   * divisor; `t % 60` truncates as in JavaScript. A message with no clock (an `update` sent
   * before the first match set one) shows `NaN:NaN`.
   */
  function ClockFace(gameTime: Option<int>): string {
    match gameTime
    case None => "NaN:NaN"
    case Some(t) => PadStart2(IntToString(t / 60)) + ":" + PadStart2(IntToString(TruncRem(t, 60)))
  }

  /** The whole text of the timer element. */
  function TimerText(gameTime: Option<int>): string {
    TimerLabel + ClockFace(gameTime)
  }

  /**
   * For a clock at or above zero the face reads `MM:SS`: both parts are digits, the seconds are
   * exactly two and below 60, the minutes at least two, and `60 * MM + SS` is the time left.
   */
  lemma ClockFaceReadsBack(t: nat)
    ensures var face := ClockFace(Some(t));
      && |face| >= 5 && face[|face| - 3] == ':'
      && var mm, ss := face[..|face| - 3], face[|face| - 2..];
      && IsDigits(mm) && IsDigits(ss) && |ss| == 2
      && ValueOf(ss) < 60
      && 60 * ValueOf(mm) + ValueOf(ss) == t
  {
    var mm, ss := PadStart2(IntToString(t / 60)), PadStart2(IntToString(TruncRem(t, 60)));
    assert TruncRem(t, 60) == t % 60;
    NatToStringDenotes(t / 60);
    NatToStringDenotes(t % 60);
    PadKeepsValue(NatToString(t / 60));
    PadKeepsValue(NatToString(t % 60));
    var face := mm + ":" + ss;
    assert face == ClockFace(Some(t));
    assert face[..|face| - 3] == mm;
    assert face[|face| - 2..] == ss;
  }

  /** Below 100 minutes the face is exactly five characters. */
  lemma ShortClockFace(t: nat)
    requires t < 6000
    ensures |ClockFace(Some(t))| == 5
  {
    assert TruncRem(t, 60) == t % 60;
    NatToStringDenotes(t / 60);
    NatToStringDenotes(t % 60);
    PadKeepsValue(NatToString(t / 60));
    PadKeepsValue(NatToString(t % 60));
  }

  // ----- the start button -----

  /** The button is enabled when the last player list names at least two players. */
  predicate StartButtonEnabled(roster: seq<PlayerView>) {
    |roster| >= MinPlayersToStart
  }

  /**
   * A client holding the player list the server last broadcast has the button enabled exactly when
   * a `startGame` it sends would start a match, as long as none is on.
   */
  lemma ButtonMatchesServerGate(s: Server, id: PlayerId, now: int, d: StartDice)
    requires !s.gameStarted
    requires |s.players| >= MinPlayersToStart ==> StartPossible(s.players, d)
    ensures StartButtonEnabled(PlayerListOf(s).players) <==> Handled(s, id, StartRequest, now, d).gameStarted
  {
  }
}
