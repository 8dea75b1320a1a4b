# Tom and Jerry: a verified model of the game server and the scoreboard

TomAndJerry is a multiplayer cat-and-mouse game played over WebSockets. The Node server
(`server.js`) keeps one shared world: the connected players, fifteen obstacles, the cheese on
the board, and a five-minute match clock. Players join as mice. A `startGame` request with at
least two players connected turns one or two of them into cats. Cats convert the mice they touch
and score 5 points per mouse. Mice score 1 point per cheese they touch. The cats win when no mouse
is left. The mice win when no cat is left or the clock runs out. The browser client (`game.js`)
sorts the players of every update into a scoreboard, writes competition ranks, and hands out at
most three medals.

This project models that core in Dafny and proves what it guarantees.

* `world.dfy`: the constants, records and small list helpers.
* `geometry.dfy`: the two collision tests.
* `spawning.dfy`: the random placement of obstacles, players and cheese, and the random choice
  of cats.
* `movement.dfy`: one move.
* `catches.dfy` and `catch_laws.dfy`: the catch pass and its laws.
* `catch_order.dfy`: which turn of the pass catches a mouse, who is credited, and which mice
  no one can catch.
* `matchstart.dfy`: what `startGame` does to the roster.
* `clock.dfy`: the cheese schedule, with JavaScript arithmetic written out.
* `server_model.dfy`: the whole server state as a value and every event handler as a transition.
* `server_laws.dfy`: what those transitions keep and guarantee.
* `engine.dfy`: the server as a class whose fields are the module-level variables of
  `server.js`. Each handler is a method that updates them in place, proved to perform the
  transition of `server_model.dfy`.
* `scoreboard.dfy`: the client comparator, an in-place sort on an array, and the in-place medal
  pass.
* `client.dfy`: the countdown text and the start-button rule.

Randomness, the clock and the client's identity are parameters:

* Each `Math.random()` value is a `real` in `[0, 1)`.
* `Date.now()` is an `int` argument called `now`.
* A connection is named by its player's id.
* Each unbounded retry loop (`do … while (collision)`, the `while` of `assignRoles`) runs over a
  finite sequence of draws. Its caller requires that the loop stops on those draws.

Sent messages are appended to an `outbox` log. Each entry records the recipients' ids, in list
order, and the message.

## Model

| member | source | states |
|---|---|---|
| World.IndexOf | server.js:74-80 | the index found holds the id, no earlier index does, and None means the id is absent (`findIndex`) |
| Geometry.HitsObstacleIffNearestWithin | server.js:284-300 | the obstacle test is exactly "the point of the rectangle nearest to the position is within `size` of it" (circle against rectangle) |
| Spawning.Pick | server.js:213-226 | `Math.floor(Math.random() * n)` lies in `[0, n)` |
| Spawning.ObstacleFromWellFormed | server.js:213-226 | a generated obstacle has its corner on the 40-pixel grid inside the canvas, and its width and height are each 40, 80 or 120 |
| Spawning.GenerateObstacles | server.js:213-226 | fifteen well-formed obstacles, the i-th made from the i-th draw |
| Spawning.PlayerCandidate | server.js:266-276 | a spawn candidate lies in `[0, 800 - size) x [0, 600 - size)` |
| Spawning.CheeseCandidate | server.js:228-234 | a cheese candidate lies on the 40-pixel grid, at least one cell from every edge |
| Spawning.FirstFree | server.js:228-242 | the position chosen is a candidate that collides with no obstacle and no player |
| Spawning.FirstFreeIsFirst | server.js:228-242 | no candidate before the chosen one is free, and there is no choice exactly when no candidate is free |
| Spawning.SampleFree | server.js:266-282 | the retry loop returns the first free candidate |
| Spawning.CatTarget | server.js:253-258 | the number of cats wanted is `min(2, floor(n / 2))`: at most 2, at most n, and at least 1 once two players are connected |
| Spawning.CollectCats | server.js:253-258 | the set of drawn indexes grows to exactly the target size, with every index a valid player position |
| Spawning.PickCatIndexes | server.js:253-258 | the loop returns the set of the specification: `min(2, floor(n/2))` distinct valid indexes |
| Movement.Attempt | server.js:137-163 | a move always stamps `lastMoveTime`, changes nothing but the position, keeps the old position when the step would hit an obstacle, and otherwise lands inside `[size, canvas - size]` |
| Movement.ClampToCanvasProjects | server.js:154-155 | the clamp lands inside the canvas margins, leaves in-bounds positions alone, and is idempotent |
| Movement.AttemptMovesAtMostOneStep | server.js:144-156 | from an in-bounds position a move goes at most 10 pixels along its own axis, and an unknown direction does not move; when the stepped circle is clear of obstacles the move lands exactly 10 pixels along its direction, or on the margin the canvas keeps when that is nearer |
| Movement.AttemptStaysOnCanvas | server.js:152-157 | a player on the canvas stays on it |
| Catches.Uncollected | server.js:335-351 | the cheese kept is a subsequence of the cheese before, in the original order |
| Catches.UncollectedMembers | server.js:335-351 | the cheese kept is exactly the cheese the mouse does not reach; nothing reached means nothing removed |
| Catches.UncollectedAppend | server.js:335-351 | the filter distributes over concatenation: filtering `a + b` keeps the survivors of `a` followed by those of `b` |
| Catches.LengthOfSubsequence | server.js:335-351 | filtering never lengthens the cheese list |
| CatchLaws.SumsAfterUpdate | server.js:326-330 | replacing one player changes the point sums and the mouse count by exactly that player's difference |
| CatchLaws.TurnEvolves | server.js:313-353 | in one turn, every player keeps id, ip, position, move time and catch flag, points never go down, a cat stays a cat, and the cheese left is a subsequence of the cheese before |
| CatchLaws.PassEvolves | server.js:313-353 | the same holds for the remaining turns of a pass |
| CatchLaws.CatchPassEvolves | server.js:313-353 | the same holds for the whole pass, and no cheese appears |
| CatchLaws.EvolvesKeepsRoleSizes | server.js:329-330 | after conversions every player still has its role's size (cat 12, mouse 8) |
| CatchLaws.CatTurnPrefix | server.js:315-333 | in a cat's turn, cat points plus five per mouse are conserved over every prefix of the roster, and mouse points do not change |
| CatchLaws.PassConservesPoints | server.js:313-353 | over a pass, cat points plus five per mouse, and mouse points plus cheese left, are both conserved |
| CatchLaws.TurnConservesPoints | server.js:313-353 | the same holds for one turn |
| CatchLaws.CatchPassScoring | server.js:313-353 | after the pass, the cats have gained exactly 5 points per mouse converted, and the mice exactly 1 point per cheese eaten |
| CatchLaws.SumCatsMonotone | server.js:327 | cat points never go down |
| CatchLaws.PendingCatchHappens | server.js:315-331 | a cat whose turn is still to come, and that reaches a mouse, ends the pass with that player a cat of size 12 |
| CatchLaws.CaughtMiceBecomeCats | server.js:326-330 | every mouse that a cat reaches at the start of the pass is a cat of size 12 after it |
| CatchLaws.TurnClearsCheese | server.js:335-351 | after a player's turn, no player up to it that is still a mouse reaches any cheese left |
| CatchLaws.PassClearsCheese | server.js:313-353 | the same holds for all players after the rest of a pass |
| CatchLaws.NoMouseReachesCheeseAfterPass | server.js:313-353 | after the pass no mouse reaches any cheese left on the board |
| CatchLaws.NoneCatchable | server.js:318-331 | a cat that reaches no mouse scores nothing |
| CatchLaws.IdleMouseStays | server.js:334-352 | over the rest of a pass, a mouse that reaches no cheese and is not converted stays exactly as it was |
| CatchLaws.ReachlessMouseUnchanged | server.js:313-353 | after the pass, a mouse that reached no cheese and is still a mouse is unchanged |
| CatchLaws.IdleCatStays | server.js:315-333 | over the rest of a pass, a cat that reaches no mouse stays exactly as it was |
| CatchLaws.ReachlessCatUnchanged | server.js:313-353 | after the pass, a cat out of reach of every mouse is unchanged |
| CatchOrder.CatTurnCredits | server.js:315-333 | in a cat's turn the catcher gains exactly 5 points per mouse it converts, its time becomes `now` when it converts any, nothing else about it changes, and no other player's score changes |
| CatchOrder.CountedCatch | server.js:318-331 | a mouse in the catcher's reach is counted among its conversions |
| CatchOrder.PassThrough | server.js:313-353 | the pass is its first `k` turns followed by the remaining ones |
| CatchOrder.StaysCat | server.js:313-353 | a player that is a cat after some turn of the pass is a cat after every later turn |
| CatchOrder.SwitchIsCatch | server.js:315-333 | the turn on which a mouse becomes a cat is the turn of a cat that reaches it |
| CatchOrder.CatchConverts | server.js:318-331 | a cat's turn that reaches a mouse converts it to a cat of size 12 |
| CatchOrder.NotCaughtTwice | server.js:313-353 | when one turn catches a mouse, no other turn of the pass catches it, neither earlier nor later |
| CatchOrder.CaughtOnce | server.js:313-353 | the turn that catches a mouse is the only one that does |
| CatchOrder.ConvertedOnce | server.js:313-353 | a mouse that ends the pass as a cat was caught on exactly one turn, by the cat whose turn it was; that turn converted it, credited that cat at least 5 points with the time `now`, and changed no other player's score |
| CatchOrder.UnreachedMouseStays | server.js:313-353 | over the rest of a pass, a mouse that reaches no cheese, is out of reach of every cat, and would be out of reach of every other player at the cat size, stays exactly as it is |
| CatchOrder.OutOfReachMouseUnchanged | server.js:313-353 | on a roster whose cats have size 12, a mouse that reaches no cheese and that no other player reaches at size 12 comes out of the pass unchanged |
| MatchStart.Reset | server.js:171-176 | every player becomes a scoreless, uncaught mouse of size 8, and nothing else changes |
| MatchStart.MatchRosterRoles | server.js:171-177 | after the reset and the role draw, exactly the drawn indexes are cats, each player has its role's size and zero score, and nothing else changes |
| MatchStart.DrawnRosterHasBothRoles | server.js:253-264 | with two or more players the drawn roster holds at least one cat and at least one mouse |
| MatchStart.RespawnFirst | server.js:266-282 | one respawn step moves player `i`, and only its position, to a spot in the spawn range clear of every obstacle, and the rest of the respawn continues from there |
| MatchStart.RespawnOnlyMoves | server.js:180-182 | the respawn changes only positions |
| MatchStart.RespawnPlacesEveryone | server.js:180-182 | every respawned player lands in the spawn range and clear of every obstacle |
| MatchStart.RespawnSeparates | server.js:266-282 | each respawned player is more than `2 * size` away from every player before it in the list |
| MatchStart.RespawnKeepsPlaced | server.js:180-182 | players before the respawn index are untouched |
| Clock.FloorQuotient | server.js:197 | `Math.floor(30 / mice)` is the floor quotient for mice > 0, and Infinity for no mice |
| Clock.TruncRem | server.js:197 | the JavaScript `%` is below the divisor in magnitude, takes the dividend's sign, and differs from the dividend by a multiple of the divisor |
| Clock.Rem | server.js:197 | a remainder by Infinity is the dividend; by zero or NaN it is NaN |
| Clock.TruncRemZero | server.js:197 | the JavaScript remainder is zero exactly when the mathematical one is |
| Clock.DropDueClosedForm | server.js:195-199 | a cheese drops exactly when 1 to 30 mice are on the board and the elapsed seconds are a multiple of `30 / mice`, or when there are no mice at second zero |
| Clock.NoDropWithoutDivisor | server.js:195-199 | once a second has passed, no cheese drops with no mice or with more than thirty |
| Clock.DropIntervals | server.js:195-199 | one mouse sees a cheese every 30 seconds, two every 15, three every 10 |
| ServerModel.Broadcast | server.js:133-135 | a broadcast changes only the outbox, appending one message to every connected player |
| ServerLaws.GameEndRestores | server.js:359-384 | the end test keeps the board and the clock; with nothing decided it is a no-op; otherwise the match and the timer stop; a win sends `gameOver` with the winner to everyone; an abandoned match stops and sends nothing; the invariant is restored |
| ServerLaws.AbandonedMatchStopsSilently | server.js:359-384 | a match left with no players is stopped without any `gameOver` message, and nothing else changes |
| ServerLaws.VerdictCases | server.js:359-377 | during a match with players, the cats win exactly when no mouse is left; the mice win exactly when mice are left and no cat is, or the clock is at zero; otherwise play continues |
| ServerLaws.JoinAddsMouse | server.js:20-48 | a connection appends a scoreless mouse of size 8 with the given id and ip, in spawn range, clear of obstacles and more than 16 pixels from every player; it sends the id to that player alone, then the new player list to all |
| ServerLaws.JoinKeepsInv | server.js:20-48 | a connection keeps the invariant |
| ServerLaws.WithoutKeeps | server.js:74-80 | removing a player by id removes exactly that player and keeps ids unique |
| ServerLaws.LeaveKeepsInv | server.js:74-91 | a disconnection keeps the invariant, and the roster after it is the old one minus the leaving player |
| ServerLaws.CatchesKeepInv | server.js:313-357 | the catch pass followed by the end test keeps the invariant |
| ServerLaws.MoveKeepsInv | server.js:137-163 | a move keeps the invariant |
| ServerLaws.ThrottledMoveOnlyRefreshes | server.js:60-67 | a move sooner than 100 ms after the last one still broadcasts an update and changes nothing else |
| ServerLaws.MoveMovesOnlyTheMover | server.js:137-163 | a move never changes another player's position or id |
| ServerLaws.StartedMatchShape | server.js:165-189 | a start announces the match, then resets everyone, makes exactly the drawn players cats, puts 15 well-formed obstacles, no cheese and every player on the canvas clear of obstacles, broadcasts that board with the previous clock, and sets the clock to 300 with the timer running |
| ServerLaws.StartKeepsInv | server.js:165-211 | a start with two or more players keeps the invariant: a cat and a mouse on the board and the clock at 300 |
| ServerLaws.SameIdsUnique | server.js:171-182 | rewriting players in place without changing their ids keeps ids unique |
| ServerLaws.TickKeepsInv | server.js:191-210 | a tick keeps the invariant |
| ServerLaws.TimeUpMiceWin | server.js:192-209 | the tick that brings the clock to zero stops the match and the timer, and its last message is `gameOver` with the mice as winners |
| ServerLaws.TickCountsDown | server.js:191-199 | any other tick lowers the clock by one, keeps players, obstacles and the cheese already down, and adds exactly one cheese when the schedule says so, of cheese size, free of obstacles and players, and on the cheese grid |
| ServerLaws.TickDropSchedule | server.js:194-199 | during a match at least one mouse is on the board, and the schedule is "a multiple of `30 / mice` seconds, with at most 30 mice" |
| ServerLaws.MiceCountPositive | server.js:194 | a roster with a mouse counts at least one mouse |
| ServerLaws.HandledKeepsInv | server.js:51-70 | every client message keeps the invariant |
| ServerLaws.StartGate | server.js:53-58 | after a `startGame` request a match is on exactly when one already was or at least two players are connected; otherwise nothing changes |
| GameServer.Engine.constructor | server.js:12-17 | the server starts with no players, no board, no match and no clock, and the invariant holds |
| GameServer.Engine.Notify | server.js:133-135 | the fields become those of the broadcast transition |
| GameServer.Engine.UpdateGameStates | server.js:103-116 | the fields become those of the update broadcast |
| GameServer.Engine.ResetGame | server.js:379-384 | the fields become those of the stopped match |
| GameServer.Engine.CheckGameEnd | server.js:359-377 | the fields become those of the end test |
| GameServer.Engine.Connect | server.js:20-48 | the fields become those of the join transition, and the invariant is kept |
| GameServer.Engine.Disconnect | server.js:74-91 | the fields become those of the leave transition, and the invariant is kept |
| GameServer.Engine.HandleMessage | server.js:51-70 | the fields become those of the message transition, and the invariant is kept |
| GameServer.Engine.HandleMove | server.js:137-163 | the fields become those of the move transition |
| GameServer.Engine.CheckCatches | server.js:313-357 | the loop over the players carries out the catch pass, then the end test |
| GameServer.Engine.CatchMice | server.js:315-333 | the inner loop of a cat carries out that cat's turn |
| GameServer.Engine.TryCatch | server.js:318-331 | one run of the inner callback credits the cat and converts the target exactly when the target is a mouse in reach, so the loop's count of conversions grows by one exactly then |
| GameServer.Engine.EatCheese | server.js:334-352 | the filter of a mouse carries out that mouse's turn |
| GameServer.FilterCheese | server.js:335-351 | the filter keeps exactly the uncollected cheese and credits one point per cheese removed |
| GameServer.OfferCheese | server.js:335-351 | one run of the filter callback extends the kept list by the cheese exactly when the mouse does not reach it, and otherwise credits one more point |
| GameServer.Engine.StartGame | server.js:165-211 | the fields become those of the start transition |
| GameServer.Engine.SetUpBoard | server.js:171-182 | the roster becomes the reset roster with the drawn cats, placed by the respawn specification, on an empty board with the generated obstacles; nothing else changes |
| GameServer.Engine.ResetRoster | server.js:171-176 | every player becomes the reset player, in place, and nothing else changes |
| GameServer.Engine.AssignRoles | server.js:253-264 | exactly the drawn indexes become cats of size 12, and nothing else changes |
| GameServer.Engine.RespawnAll | server.js:180-182 | every player is placed by the respawn specification |
| GameServer.Engine.Tick | server.js:191-210 | the fields become those of one tick, and the invariant is kept |
| GameServer.Engine.CountDown | server.js:191-199 | the clock goes down by one, the board is broadcast, and a cheese is dropped exactly when the schedule says so |
| GameServer.Engine.DropACheese | server.js:228-242 | the fields become those of the cheese drop |
| Scoreboard.CompareIsLexicographic | game.js:180-189 | the comparator orders by higher total first, then by earlier time, and is antisymmetric |
| Scoreboard.NotAfterTotalPreorder | game.js:180-189 | the comparator is total and transitive |
| Scoreboard.SortedMeans | game.js:180-189 | on a sorted list totals never go up, and equal totals come in order of time |
| Scoreboard.SortScoreboard | game.js:180-189 | the array ends sorted by the comparator, is a permutation of what it held, and is stable: entries that compare equal keep their relative order |
| Scoreboard.SinkLast | game.js:180-189 | one insertion step extends the sorted prefix by one, keeps the array's contents, and keeps the order of entries that compare equal |
| Scoreboard.SwapDown | game.js:180-189 | one swap of neighbours that compare out of order exchanges exactly those two entries, keeps the contents and the order of equal entries |
| Scoreboard.SwapKeepsTies | game.js:180-189 | swapping two neighbours that do not compare equal keeps, for every entry, the subsequence of entries equal to it |
| Scoreboard.TiedWithAppend | game.js:180-189 | the entries equal to a given one in a concatenation are those of each part, in order |
| Scoreboard.AssignMedalClasses | game.js:230-258 | the in-place loop leaves the array as the medal-pass specification says |
| Scoreboard.MarkAt | game.js:236-257 | one run of the callback writes the specified entry at its index, advances the loop's tally by one entry, and touches no other index |
| Scoreboard.MarkEntry | game.js:237-256 | the callback's rank, previous total and medal counter after one entry are the tally after it, and the entry written is the one the specification gives |
| Scoreboard.ZeroTotalsUntouched | game.js:237 | an entry with total zero is left as it was; every other entry gets a rank and a medal; ids and totals never change |
| Scoreboard.MedalsMatchRanks | game.js:245-256 | gold goes only to rank 1, silver only to rank 2, bronze only to rank 3, and a rank above 3 gets `''` |
| Scoreboard.MedalCountIsTally | game.js:230-258 | the number of medals written equals the loop's counter, which never exceeds 3 |
| Scoreboard.AtMostThreeMedals | game.js:245-256 | at most three medals are handed out |
| Scoreboard.CountAboveMonotone | game.js:231-243 | a higher threshold counts no more entries |
| Scoreboard.CountAboveAll | game.js:231-243 | when all entries are above the threshold, all are counted |
| Scoreboard.CountAboveTail | game.js:231-243 | entries at or below the threshold do not change the count |
| Scoreboard.RankFromPrefix | game.js:231-243 | on a sorted list the rank written at `i` is one more than the number of earlier entries with a higher total |
| Scoreboard.SortedRanks | game.js:231-243 | on a sorted list every scored entry's rank is one more than the number of entries with a strictly higher total, so equal totals share a rank |
| Scoreboard.SortedRanksNonDecreasing | game.js:231-243 | on a sorted list ranks never go down, and entries before a scored entry are scored |
| Scoreboard.RankAtMostPosition | game.js:239-241 | the rank written at position `index` is between 1 and `index + 1` |
| Scoreboard.GivenCount | game.js:245-256 | while every entry so far is scored, each of the first three takes a medal and no later one does |
| Scoreboard.SortedMedals | game.js:230-258 | on a sorted list the first three scored entries get the medal of their rank and every later scored entry gets `''` |
| ClientView.DigitChar | game.js:169-170 | a digit character denotes its value |
| ClientView.NatToStringDenotes | game.js:169-170 | `toString()` of a non-negative integer is a non-empty string of digits denoting it, one digit below 10 and at most two below 100 |
| ClientView.LeadingZero | game.js:169-170 | a leading zero does not change the number |
| ClientView.PadKeepsValue | game.js:169-170 | `padStart(2, '0')` keeps the number and makes the text at least two digits long |
| ClientView.ClockFaceReadsBack | game.js:168-171 | for a time `t >= 0` the timer reads `MM:SS`, with both parts digits, exactly two seconds digits, `SS < 60` and `60 * MM + SS = t` |
| ClientView.ShortClockFace | game.js:168-171 | below 100 minutes the timer face is five characters |
| ClientView.ButtonMatchesServerGate | game.js:160-164 | with no match on, the start button is enabled exactly when the server would start a match on `startGame` |

## Left out

- Networking, JSON encoding, console logging, the DOM and the canvas. The outbox records which
  message went to whom. The ordering of deliveries across sockets is not modelled.
- `mouseFleeScore` (server.js:244-251). Nothing calls it; its only call site is commented out.
- `setInterval` and `clearInterval` themselves. The timer is the boolean `timerRunning`, and one
  run of the callback is `Engine.Tick`. Time between ticks and concurrent delivery of events are
  not modelled.
- One `now` per event. `handleMove` and the catch pass it triggers read `Date.now()` separately
  in the source; the model gives them one value. Every scoring in one pass is stamped with it.
- Each random consumer gets its own sequence of draws: a connection, each player's respawn, the
  cat draw, the obstacles, and a dropped cheese. The interleaving of one global `Math.random`
  stream is not modelled.
- Termination of the retry loops. A loop that never finds a free spot, or never draws enough
  distinct cat indexes, is excluded by the callers' preconditions (`FirstFree(...).Some?`,
  `CatIndexes(...).Some?`, `RespawnFrom(...).Some?`).
- Uuid freshness is a precondition of `Engine.Connect` (the id is not yet in use).
- A connection is identified by its player's id rather than by its socket object. In the source
  each socket's message handler holds its own player object, and no message arrives after the
  socket closes, so the `if (!player) return` guard of `handleMove` never fires. The model maps a
  message for an id no longer in the roster to the `None` case of `IndexOf`: no move and no catch
  pass.
- A client message that fails `JSON.parse`, and a move whose direction is not a string, are not
  modelled. Any unrecognised direction is `Other`.
- The engine's own sorting algorithm. `Array.prototype.sort` is modelled by an insertion sort on
  the array. Since its 2019 edition ECMAScript requires the sort to be stable, so its result is
  fixed by the comparator and is the one the model proves.
- The client's own copy of `gameStarted` and the rest of `handleWebSocketMessage` are not modelled.
- `TimerText` of a negative clock is defined (`Math.floor` and a truncating `%`), but no property
  is stated for it. The server never sends a negative clock.
- Obstacle and collision coordinates are integers. The half-widths of `isCollidingWithObstacles`
  are computed on doubled coordinates so that they stay integral. `Math.sqrt(d) < r` becomes
  `d < r * r`, which is exact for non-negative integers.

Behaviour the model keeps as the code has it, though it may look unintended:

- A catch scores only for the first cat that reaches a mouse. The mouse turns into a cat at once,
  so later cats in the same pass no longer see it as a mouse.
- With no mice the cheese divisor is `Math.floor(30 / 0) = Infinity`, and `x % Infinity` is `x`.
  So no cheese drops, rather than the schedule being skipped. This can only happen at second zero,
  which never occurs during a match.
- The spawn range is `[0, canvas - size)` on each axis and is not clamped to the margin a move
  keeps. A freshly spawned player may stand closer than `size` to the edge.
- The spawn and cheese tests against players use `2 * size`, the mover's own size doubled, and
  not the sum of the two sizes. During `startGame` each player's respawn is also tested against
  its own old position and against players not yet respawned.
- The `update` broadcast inside `startGame` happens before `gameTime = 300`. It carries the
  previous match's clock, or none before the first match. The client shows `NaN:NaN` for none.
- `resetGame` stops the timer and clears `gameStarted` only. Roles, scores, obstacles and cheese
  stay until the next start.
