# tg18ai arena engine, modelled in Dafny

This project models the authoritative engine of a small real-time arena game.
Three players move among rectangular obstacles, aim and fire bullets, and see
each other only along lines of sight. Remote clients drive them with
newline-terminated text commands over TCP. A game window ticks every 20 ms,
updates every live player, and ends the round with a draw or a winner. While
two or more players live, a world state holding the states of the others is
built for every roster player; only a connected player is sent it.

The model has six modules:

- `Wrappers`: the `Option` type.
- `Geometry`: vectors, rectangles, the arena, `Line` and `Line::intersection`.
  It also holds the `Math` record, which carries the library functions
  (`atan2`, `cos`, `sin`, `hypot`, `std::stof`) as fields, so that every
  numeric result depends only on them.
- `Framing`: what `Player::onTcpMessage` does to the byte buffer. This covers
  `rfind` and `substr` with `size_type` wrap-around, the `getline` tokeniser
  and the mailbox entry that is produced.
- `Visibility`: `Player::updateVisibility`. Its loops are methods, each proved
  to compute a reference function: the candidate angles, the edges, the
  visible players, the nearest hit and the sweep fan.
- `Players`: the `Player` and `Bullet` classes. Their fields are updated in
  place by `handleCommand`, `update`, `die`, `reset`, `onTcpMessage`,
  `setOwner`, `setTarget`, `start` and `checkHit`. `Step` gives the effect of
  one command on values, and `HandleCommand` is proved to perform exactly
  that effect.
- `Session`: the `GameWindow` class. This covers the roster, `onNewClient`,
  `getPlayerAt`, `players(except)`, `isInside`, `setGameRunning`, the
  game-over handlers and `onTick`.

Reals stand for the source's `float`s. The clock reading, the random rolls,
the obstacle rectangles placed by `build()`, the result of `getPlayerAt` for
a bullet, and the positions `playerPositions` reports are all parameters.

Note that the code behaves as follows, and the model does the same:

- A player sees another only when no edge at all meets the ray towards it,
  wherever along the ray the meeting lies, including beyond the other player
  (player.cpp:602-610).
- The world state built for a player lists every other roster player, alive
  or dead (gamewindow.cpp:200-212). `sendUpdate` writes it only when the
  player holds a connection (player.cpp:376-378).
- `onTick` updates only the players alive when the loop reaches them, and
  counts them before the draw/winner test (gamewindow.cpp:177-198).
- The framed line is `substr(prevNewline, lastNewline)` (player.cpp:470).
  Its second argument is a length, and when an earlier newline exists the
  line starts with it.

## Model

| member | source | states |
|---|---|---|
| Geometry.FromPosSize | player.h:77 | the rectangle starts at the position and spans the size |
| Geometry.Normalized | player.cpp:324 | the normalised rectangle has its top-left corner above and left of its bottom-right one, and contains both given corners |
| Geometry.Clamp | player.cpp:264-267 | the min/max pair keeps a value in [0, hi], unchanged inside, hi above, 0 below |
| Geometry.MakeLine | player.cpp:504 | the line runs from p1 to p2 and its deltas reach p2 from p1 |
| Geometry.Intersect | player.cpp:518-551 | invalid exactly when parallel, unsolvable, behind the ray or off the segment; a valid hit lies on the ray at a non-negative distance and on the segment at a parameter in [0, 1] |
| Geometry.OnBothLines | player.cpp:539-550 | the crossing point computed along the ray equals the one computed along the segment |
| Framing.SizeMinusOne | player.cpp:466 | `lastNewline - 1` wraps to npos at zero |
| Framing.RFind | player.cpp:459-466 | rfind gives the last index not past pos holding the character, or none exactly when no such index exists |
| Framing.Substr | player.cpp:470 | substr returns min(len, size - pos) characters starting at pos |
| Framing.IndexOf | player.cpp:476 | the first index holding the character, or none when absent |
| Framing.TokensHaveNoSpace | player.cpp:476 | no token produced by getline holds a space |
| Framing.TokensRoundTrip | player.cpp:473-482 | joining the tokens with single spaces gives back the line, minus one trailing space |
| Framing.FirstNonEmpty | player.cpp:477-478 | the first non-empty token's index, or none when all tokens are empty |
| Framing.AbsorbArguments | player.cpp:479-481 | once a command is set, every later token is appended to the arguments |
| Framing.AbsorbFirstWord | player.cpp:477-481 | the first non-empty token becomes the command and every token after it an argument |
| Framing.ParseLine | player.cpp:472-486 | the mailbox gets the first non-empty token as command and the later tokens as arguments, or the whole line as command when no argument follows |
| Framing.Tokenize | player.cpp:472-486 | the getline loop computes ParseLine |
| Framing.GetLine | player.cpp:476 | one getline call yields a space-free token, and the tokens of the stream are that token followed by the tokens of the rest |
| Framing.TokensAtSpace | player.cpp:476 | the tokens of a text split at its first space |
| Framing.TokenStep | player.cpp:476 | the tokens of a text split at its first space or at its end |
| Framing.Frame | player.cpp:457-492 | nothing is framed exactly when the buffer has no newline; the buffer is cleared exactly when it ends in the last newline, and otherwise keeps the suffix from that newline, which holds no other newline |
| Framing.LastNewline | player.cpp:459 | the index of the buffer's last newline |
| Framing.FrameLine | player.cpp:466-470 | the line is the text before the last newline when no newline precedes it; otherwise it starts with the earlier newline, and also holds the last one when that earlier newline is not at index 0 |
| Framing.SingleLineFramed | player.cpp:457-492 | a single newline-terminated line is taken whole and the buffer emptied |
| Framing.WordIsCommand | player.cpp:484-486 | a one-word line becomes the command with no arguments |
| Framing.SplitReadKeepsNewline | player.cpp:457-492 | "FORWARD\nFIR" then "E\n" frames "FORWARD" and then "\nFIRE" (the kept newline stays in front of the command) |
| Visibility.CornerAnglesSpread | player.cpp:564-586 | each corner contributes angle - 0.0001, angle and angle + 0.0001, in that order |
| Visibility.AnglesOfBlock | player.cpp:561-592 | block k's twelve candidate angles sit at positions 12k..12k+12 |
| Visibility.EdgesOfBlock | player.cpp:588-591 | block k's four edges sit at positions 4k..4k+4 |
| Visibility.ClosestIsNearest | player.cpp:625-636 | the kept intersection is valid exactly when some edge is hit; it is then one of the hits and no hit is nearer, and is otherwise the invalid default |
| Visibility.VisibleAreUnblocked | player.cpp:594-615 | every visible player was given and no edge meets the ray towards it |
| Visibility.VisibleIff | player.cpp:594-615 | a given player is visible if and only if no edge meets the ray towards it |
| Visibility.HitAnglesHit | player.cpp:620-643 | every kept ray angle has a valid nearest hit |
| Visibility.FanHitsAreClosest | player.cpp:620-643 | each fan point is the nearest hit of its ray |
| Visibility.HitAnglesAscending | player.cpp:618-643 | filtering the sorted angles to those that hit keeps them ascending |
| Visibility.Insert | player.cpp:618 | insertion adds exactly one element to the multiset |
| Visibility.InsertAscending | player.cpp:618 | insertion into an ascending sequence keeps it ascending |
| Visibility.SortPermutes | player.cpp:618 | std::sort's result is a permutation of the angles |
| Visibility.SortAscends | player.cpp:618 | std::sort's result is ascending |
| Visibility.Fan | player.cpp:617-649 | no fan exactly when fewer than three points result; a fan starts at the centre, has at least four points and is closed by repeating its second point |
| Visibility.FanPointsAreNearestHits | player.cpp:617-649 | every inner fan point is the nearest hit of its ray, and the rays are in ascending angle order |
| Visibility.BlockRays | player.cpp:563-591 | one iteration of the first loop yields the block's candidate angles and edges |
| Visibility.CollectBlocks | player.cpp:561-592 | the first loop yields the candidate angles and edges of all blocks |
| Visibility.IsBlocked | player.cpp:602-610 | the inner loop with break reports exactly whether some edge meets the ray |
| Visibility.FindVisible | player.cpp:594-615 | the visible-player loop yields VisibleAmong |
| Visibility.NearestHit | player.cpp:625-636 | the closest-intersection loop yields Closest |
| Visibility.Sweep | player.cpp:620-643 | the sweep loop yields the centre followed by the nearest hit of every ray that hits |
| Visibility.ComputeVisibility | player.cpp:554-650 | updateVisibility computes the visible players and the fan of the reference functions |
| Players.Digit | player.cpp:132 | the digit character for d |
| Players.Decimal | player.cpp:132 | to_string gives a non-empty string of digits |
| Players.DecimalRoundTrip | player.cpp:132 | reading the decimal string back gives the number |
| Players.DefaultName | player.cpp:132 | the default name is "Bot " followed by the id in decimal |
| Players.Dispatch | player.cpp:220-250 | a recognised command word is exactly its keyword |
| Players.DispatchKeyword | player.cpp:220-250 | every keyword dispatches to its own command |
| Players.Requested | player.cpp:252-267 | the requested position is always inside the world, and equals the in-bounds position when no step is requested |
| Players.Tail | player.cpp:252-312 | the movement tail keeps cursor and name; it returns true exactly when the clamped position or the aim changed, and then commits both with animations from the old position |
| Players.Step | player.cpp:209-313 | dead players, unknown commands and a wrong argument count are refused with nothing changed; only FIRE fires; stof failure throws, after storing x when only y failed; NAME sets the name; a true result aims at the cursor and commits a real change; the committed position stays in the world |
| Players.MoveCommits | player.cpp:239-312 | a movement command returns whether the clamped step or the aim changed, and commits exactly that step |
| Players.BodyRect | player.cpp:315-325 | the player's square contains its position |
| Players.Judge | player.cpp:69-89 | the cover changed exactly when the cover differs from launch; a kill exactly when it does not and a player other than the owner is there |
| Players.Player.constructor | player.cpp:93-133 | spawns at (roll mod w) div 2 + w div 4 and the same for y, at angle 0, with the name "Bot id", alive and with no connection or mail |
| Players.Player.State | player.cpp:389-401 | serializeState sends x and y of the position, pointing_at x and y of the cursor, the rotation, and alive exactly when not dead |
| Players.Player.IsAlive | player.cpp:369-372 | alive exactly when not dead |
| Players.Player.IsActive | player.cpp:364-367 | active exactly when a connection handle is held |
| Players.Player.CloseConnection | gamewindow.cpp:260 | the handle is dropped, so the player is no longer active |
| Players.Player.Geometry | player.cpp:315-325 | the empty rectangle once dead, otherwise a rectangle containing the position |
| Players.Player.Die | player.cpp:336-344 | dead afterwards; the first call detaches the node and later calls change nothing |
| Players.Player.Reset | player.cpp:327-334 | alive afterwards; a dead player is re-attached |
| Players.Player.SetTcpConnection | player.cpp:346-362 | the handle (possibly null) is stored |
| Players.Player.Fire | player.cpp:234-238 | exactly one new bullet is attached, launched from the player towards the cursor |
| Players.Player.HandleCommand | player.cpp:209-313 | the pose, the result and the bullets are exactly those of Step |
| Players.Player.MoveTail | player.cpp:252-312 | the pose and result are exactly those of Tail |
| Players.Player.UpdateVisibility | player.cpp:554-651 | the visible players and the polygon are those of the reference functions at the current position, and nothing else changes |
| Players.Player.Show | player.cpp:594-649 | the visible list is replaced, and the polygon only when there is a fan |
| Players.Player.TakeMail | player.cpp:409-419 | with a connection and a pending command, the command is applied once exactly as Step says; the mailbox is emptied unless the command threw; without a connection nothing changes |
| Players.Player.Update | player.cpp:403-420 | a dead player is unchanged; a live one gets its visibility recomputed and then its mailbox taken as TakeMail says |
| Players.Player.OnTcpMessage | player.cpp:438-501 | a failed read drops the connection only; otherwise the chunk is appended, and when Frame finds a line the buffer becomes Frame's rest and the mailbox ParseLine of the line |
| Players.Bullet.constructor | player.cpp:9-13 | not started, not inside, no owner, animations idle |
| Players.Bullet.SetOwner | player.cpp:16-20 | the owner is set and its world becomes the bullet's |
| Players.Bullet.SetTarget | player.cpp:22-33 | the target is set and each axis animates from the owner's position at time 0 to the target at time 1 |
| Players.Bullet.Create | player.h:72-80 | a fresh bullet with the owner, target, colour and a 6 x 6 square centred on the owner |
| Players.Bullet.Start | player.cpp:35-67 | the cover at launch is recorded and both animations run |
| Players.Bullet.CheckHit | player.cpp:69-89 | the verdict is Judge's; a cover change stops the bullet and hides it; a kill stops it and kills the player found; otherwise nothing changes |
| Players.Bullet.MoveX | player.cpp:61-62 | the x move shifts the square and, once started, is checked for a hit as CheckHit says |
| Players.Bullet.MoveY | player.cpp:61-62 | the y move shifts the square and, once started, is checked for a hit as CheckHit says |
| Players.Bullet.OnXCompleted | player.cpp:47-52 | the bullet is destroyed when x completes unless y still runs |
| Players.Bullet.OnYCompleted | player.cpp:54-59 | the bullet is destroyed when y completes unless x still runs |
| Session.AliveIndicesExact | gamewindow.cpp:174-186 | playersAlive holds exactly the indices of live players, in increasing roster order |
| Session.AliveIndicesStep | gamewindow.cpp:177-182 | reaching index i appends i exactly when that player is alive |
| Session.NoneAlive | gamewindow.cpp:188-192 | no live index exactly when every player is dead |
| Session.LoneSurvivor | gamewindow.cpp:194-198 | with one live index, it is the only live player |
| Session.FirstFalse | gamewindow.cpp:131-137 | the first player without a connection, or none exactly when all have one |
| Session.SurvivorsExact | gamewindow.cpp:143-157 | players(except) holds exactly the live roster players with another id |
| Session.ExceptAbsent | gamewindow.cpp:203-208 | for an id nobody has, every state is listed |
| Session.ExceptSelf | gamewindow.cpp:203-208 | with distinct ids, a player's others are the roster without it |
| Session.WorldStatesOmitOne | gamewindow.cpp:200-212 | with distinct ids, each world state lists one player fewer than the roster |
| Session.GameWindow.constructor | gamewindow.cpp:12-79 | three players with consecutive ids and the palette colours, alive and unconnected, inside the arena; paused with the next update due now |
| Session.GameWindow.GetPlayerAt | gamewindow.cpp:110-123 | null exactly when no live player's geometry contains the point; otherwise the first such player in roster order |
| Session.GameWindow.PlayersExcept | gamewindow.cpp:143-157 | the live players with another id, in roster order |
| Session.GameWindow.IsInside | gamewindow.cpp:215-224 | some obstacle rectangle contains the point |
| Session.GameWindow.OnNewClient | gamewindow.cpp:125-141 | accepted exactly when running and some player is free; then exactly the first free player gets the connection, and otherwise no connection changes |
| Session.GameWindow.SetGameRunning | gamewindow.cpp:238-254 | the flag is set; setting the current value changes nothing |
| Session.GameWindow.HandleGameOver | gamewindow.cpp:256-262 | stopped, with every connection closed |
| Session.GameWindow.HandleDraw | gamewindow.cpp:264-268 | stopped, with every connection closed |
| Session.GameWindow.HandleWinner | gamewindow.cpp:270-274 | stopped, with every connection closed |
| Session.GameWindow.OthersOf | gamewindow.cpp:201-208 | the states of every roster player with another id, in roster order |
| Session.GameWindow.BroadcastStates | gamewindow.cpp:200-212 | one world state per roster player, each listing the others |
| Session.GameWindow.UpdatePlayer | gamewindow.cpp:184 | one update() call: the visibility log grows exactly when alive; a dead player is unchanged; a throw needs a connection and pending mail; otherwise the mailbox is emptied |
| Session.GameWindow.UpdateAll | gamewindow.cpp:174-186 | without a throw, playersAlive is the live indices before the loop; the players before the stop were updated once with their own positions, and the rest are untouched |
| Session.GameWindow.Conclude | gamewindow.cpp:188-212 | no live player gives a draw and one gives that player as winner, both with the game stopped and connections closed; otherwise every player gets its world state and nothing changes |
| Session.GameWindow.Round | gamewindow.cpp:172-212 | draw exactly when no player was alive, won exactly when one was (that player); an aborted round stops at a connected player and leaves the later players untouched |
| Session.GameWindow.OnTick | gamewindow.cpp:163-213 | paused and not-yet-due ticks change nothing; a due tick schedules the next one 20 ms later; unless aborted it is a draw exactly when no player was alive and a win exactly when one was, that player winning; it ends in a draw or win (game stopped, connections closed), a broadcast of world states, or an abort at a connected player |

## Left out

- Floating point: reals stand for `float`, and rounding is not modelled. `Geometry.Intersect` rejects any zero divisor as "no intersection": a zero-length line, a vertical ray, or a zero crossing between anti-parallel or collinear lines that the source's parallel test lets through. In those cases the source divides by zero (player.cpp:534-550), and some of them give a valid hit where the model reports none: for collinear lines the NaN distance passes both range tests; for a vertical ray (dx = 0, which happens in the visible-player test whenever two players share an x coordinate, and spawn x values are integers, player.cpp:107) the distance is 0/0 or ±x/0; and for a zero-length edge whose point lies on the ray the segment parameter is 0/0.
- Library maths and `std::stof` are fields of the `Math` record: `atan2`, `cos`, `sin` and `hypot` are not given their real definitions.
- Rendering, the scene graph, fonts, the overlay text and `requestRender` are left out. `inScene` stands for the root node being attached.
- The animation clock is left out. A bullet's axis moves are the methods `MoveX`/`MoveY`, and completions are `OnXCompleted`/`OnYCompleted`. The committed position stands for the animated one, and the animation duration (`distance / 1000`) is not modelled.
- `std::rand` is left out: spawn rolls and the obstacle rectangles of `build()` are parameters.
- `sendUpdate`, the JSON encoding and the TCP server are left out. The broadcast returns a world state for every roster player, connected or not, in `TickResult.Broadcast`. That `sendUpdate` writes only to connected players (player.cpp:376-378) is not modelled.
- The command mutex and the concurrency between the read callback and the tick are left out. Each method is atomic.
- `GameWindow::playerPositions` is declared in gamewindow.h but not defined in gamewindow.cpp: it is the parameter `positionsFor`, indexed by player id.
- `Player::closeConnection` is called at gamewindow.cpp:260 but neither player.h nor player.cpp defines it: it is modelled as dropping the handle.
- Players.Player.IsActive: the source's `isActive` also asks `is_connected()` of the handle (player.cpp:364-367). The model treats a held handle as connected, so a handle whose peer has gone away is active in the model but not in the source; this decides which slot `onNewClient` picks (gamewindow.cpp:132) and whether `update()` takes the mailbox (player.cpp:409).
- The window size is fixed: `Player.world` and `GameWindow.arena` are constants, while the source reads `m_world->size()` on every call (player.cpp:107-108, 264-267, 559). A resize, which would move the clamp bounds and the map border, is not modelled, and the invariant that every player lies inside the world relies on the size never changing.
- `Player::handleEvent` (local keyboard and mouse control), `setName`'s text texture and printing, and `main.cpp` are outside this model.
- The unused `states` map of `onTick` and the winner's name printing have no effect and are left out.
- Session.GameWindow.OnTick: the source reads `m_clock.now()` twice, for the guard (gamewindow.cpp:169) and again for the schedule (gamewindow.cpp:172); the model takes one reading `now` for both, so the next update is scheduled from the guard's reading.
- `std::stof` throwing inside `onTick` is modelled as `TickResult.Aborted`: the tick stops at that player. What the exception does after leaving `onTick` is left out.
- Session.GameWindow.OnTick: the per-player update effects (which players were updated and how) live in `Round`'s contract and are not restated; on a draw or a win they are not stated at all. The draw/win decision itself is stated.
- Session.GameWindow.Round: on a draw or a win, which players were updated is not stated, only the outcome, the stopped game and the closed connections.
- Session.GameWindow.UpdateAll: it states each player's update through the ghost log `Player.updates` and the mailbox facts; it does not restate `Player.Update`'s full pose contract.
- Session.GameWindow.UpdatePlayer: it carries only the small facts `UpdateAll` needs; the full effect is `Players.Player.Update`'s contract.
- `Player.updates` is a ghost log of the positions each visibility recomputation was given. It has no counterpart in the source.
