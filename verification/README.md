# Platformer game rules in Dafny

This project models the game-state rules of a small kaboom platformer. The player
escapes a chasing ghost and picks up hearts and power-ups that expire. Health drains
over time, and the score grows with time and with pickups. The model also covers the
top-three leaderboard that is kept between sessions, and the site-title transform of
the project's web page.

The engine is treated as the source of events. It reports a frame with its time delta, a
contact with the enemy or with a collectible, a spawn wave, the positions used by the
fall-off check, and a restart key or click. `Game.Step` applies the handler the game
registers for each of these. Timers and deltas are exact `real`s. Health and score are
unbounded integers. The browser's storage is replaced by a `Leaderboard.Stored` value.

Modules:

- `Sorting`: a reference descending sort, with a proof that any non-increasing
  permutation is the same sequence. This is why the engine's sort may stand in for it.
- `Leaderboard`: `getTopScores` / `updateTopScores`.
- `PlayerState`: the six global variables, the pickup effects, the per-frame update
  handlers and the health colour band.
- `Collectibles`: hearts and power-ups with their lifetimes, the spawn wave, ageing and
  removal.
- `Game`: a session (stored board, player globals, scene) and the event handlers.
- `Title`: the host-to-title string function.

Behaviour modelled as the code has it:

- Both the score timer and the drain timer reset to 0 when they fire. The excess time is
  dropped, so there is at most one drain per frame.
- Two update handlers each add `dt` to the score timer and may each score a point. A frame
  can therefore score two passive points.
- The immunity timer is not clamped at 0 when immunity ends.
- Falling off ends the game when either the player or the enemy reaches the bottom edge.
  This holds whatever the immunity.
- Restart resets only health and score. Immunity and both timers carry over.
- A stored empty list is kept as it is. Only a missing value gives `[0, 0, 0]`, because
  JavaScript treats an empty array as truthy.
- Five one-second frames from a fresh start give +10 score, because both update handlers
  score, and -10 health (`Game.FiveOneSecondFrames`).
- A stored board that is not valid JSON has no fallback: `JSON.parse` throws.
- Scene changes are deferred by the engine to the end of the frame. Each call of
  `gotoGameOver` queues one more change to the game-over scene, counted in `requests`.
  At `FrameEnd` the game-over scene is set up once per request, in turn. Each set-up
  records the score as it stands after every handler of that frame. So a frame in which
  the drain empties health and the enemy also touches the player records the score twice
  (`Game.DrainAndContactInOneFrame`, `Leaderboard.SecondBestRecordedTwice`).

## Model

| member | source | states |
|---|---|---|
| Sorting.SortDesc | src/main.js:68 | the result is in non-increasing order, has the same length and holds exactly the same elements (as a multiset) |
| Sorting.SortedPermutationUnique | src/main.js:68 | two non-increasing sequences with the same elements are equal, so any correct sort with comparator `b - a` gives the same list |
| Leaderboard.GetTopScores | src/main.js:59-62 | a stored list is returned unchanged; with nothing stored the board is three zeros |
| Leaderboard.UpdateTopScores | src/main.js:65-72 | the new board is non-increasing, one to three long (one longer than the old board, capped at three), drawn from the old board plus the new score, and every candidate left out is no better than the last one kept |
| Leaderboard.UpdateIsTopOfAnySort | src/main.js:66-69 | the board equals the first three entries of ANY non-increasing arrangement of the old board plus the new score |
| Leaderboard.UpdateNeverLowersRanks | src/main.js:65-72 | on an ordered board of at most three, recording a score never lowers the score held at any rank |
| Leaderboard.LowScoreLeavesBoard | src/main.js:65-72 | a score no higher than the third entry of a full ordered board leaves the board unchanged |
| Leaderboard.HighScoreEntersBoard | src/main.js:65-72 | a score higher than the third entry of a full ordered board appears on the new board |
| Leaderboard.NewBestScore | src/main.js:65-72 | a score at least the best of a full ordered board heads the new board, and the old first two follow it |
| Leaderboard.RecordTimes | src/main.js:65-72 | no recording leaves the storage as it is; one recording stores the updated board; after any recording the stored board is ordered and one to three long |
| Leaderboard.NewBestRecordedTwice | src/main.js:65-72 | a new best score recorded twice on a full ordered board fills the first two ranks, and the old best falls to third |
| Leaderboard.NewBestTwice | src/main.js:65-72 | the same, stated on two updates in a row |
| Leaderboard.BestRecordedAgain | src/main.js:65-72 | recording the best score of a full ordered board again puts it on the board twice and drops the last entry |
| Leaderboard.SecondBestScore | src/main.js:65-72 | a score from the second entry up to below the best of a full ordered board takes second place, and the old second falls to third |
| Leaderboard.SecondBestRecordedTwice | src/main.js:65-72 | such a score recorded twice fills the second and third ranks below the unchanged best; for example 45 recorded twice on [50, 40, 30] gives [50, 45, 45] |
| Leaderboard.SecondBestTwice | src/main.js:65-72 | the same, stated on two updates in a row |
| Leaderboard.FirstScoreOnEmptyStorage | src/main.js:60 | with nothing stored, a non-negative score s gives the board [s, 0, 0] |
| PlayerState.HeartPickup | src/main.js:319-327 | health rises by 10 but never above 100, and never falls for a health of at most 100; score rises by 1; no other global changes; validity is kept |
| PlayerState.PowerUpPickup | src/main.js:330-339 | immunity is on with exactly 5 s left; score rises by 5; health and both accumulators are unchanged |
| PlayerState.PowerUpResetsImmunity | src/main.js:332-333 | the remaining immunity has no effect on a power-up's result: the window is reset, not extended |
| PlayerState.ScoreTick | src/main.js:240-245 | the score rises by one exactly when the accumulated time reaches one second, and the accumulator then becomes 0; otherwise only the accumulator grows by dt |
| PlayerState.ImmunityTick | src/main.js:350-356 | active immunity loses exactly dt and ends exactly when the timer is then at most 0, and the timer is not clamped; inactive immunity is untouched |
| PlayerState.DrainTick | src/main.js:358-366 | below 2.5 s only the accumulator changes; at 2.5 s health drops by 10, or to 0 if less is left, and the accumulator becomes 0; game over is requested exactly when a drain leaves health at 0 |
| PlayerState.Update | src/main.js:342-366 | over one frame the score rises by 0 to 2; health is unchanged or drained once; immunity is never granted and counts down by dt; game over implies health 0; a valid player stays valid for dt >= 0 |
| PlayerState.ImmunityLastsItsTimer | src/main.js:350-356 | over a run of frames an immunity with T seconds left stays on exactly while the total elapsed time is below T, and the timer then shows T minus that time |
| PlayerState.PowerUpShieldsFiveSeconds | src/main.js:330-356 | after a power-up the player is immune exactly until the frames' total time reaches 5 s |
| PlayerState.HealthColour | src/main.js:400-409 | red exactly at 30 or less, green exactly above 60, orange in between |
| PlayerState.HealthColourMonotone | src/main.js:400-409 | more health never shows a more alarming colour |
| Collectibles.SpawnWave | src/main.js:288-311 | a wave appends a heart with 20 s and, when it brings one, a power-up with 10 s, keeping the existing collectibles; liveness is kept |
| Collectibles.Age | src/main.js:368-381 | after a frame no more collectibles remain, all with time left, and live collectibles stay live for dt >= 0 |
| Collectibles.AgeKeepsExactlySurvivors | src/main.js:369-381 | a collectible is present after the frame exactly when it has time left and was present before with dt more time |
| Collectibles.AgeDistributes | src/main.js:368-381 | each collectible ages on its own: ageing a concatenation ages each part |
| Collectibles.AgeOne | src/main.js:369-381 | a single collectible survives a frame, with dt less time, exactly when time is then left; otherwise it is removed |
| Collectibles.Remove | src/main.js:320 | taking a collectible removes exactly that one and keeps the others in order |
| Game.EnterGame | src/main.js:288-316 | entering the game scene holds exactly the first spawn wave (a heart with 20 s, then a power-up with 10 s when the wave brings one), no pending game over, and the globals unchanged |
| Game.Begin | src/main.js:51-56 | the first game starts with full health, zero score, no immunity, all three timers at 0, and a valid session |
| Game.OnEnemyContact | src/main.js:257-261 | contact with the enemy adds one game-over request exactly when the player is not immune, and changes nothing else |
| Game.OnFallCheck | src/main.js:450-454 | one game-over request is added exactly when the player or the enemy is at or below the bottom edge, whatever the immunity |
| Game.OnTouch | src/main.js:319-339 | the touched collectible is removed and its kind's effect applied; an index naming no collectible changes nothing |
| Game.OnSpawn | src/main.js:288-311 | a spawn wave adds to the collectibles and changes nothing else |
| Game.OnFrame | src/main.js:342-382 | a frame updates the player, ages the collectibles, and adds one game-over request exactly when the drain empties health |
| Game.OnFrameEnd | src/main.js:459-470 | with requests pending, the game-over scene opens and the score reached at the end of the frame is recorded once per request; the last board stored is the one shown; a single request records it once; with no request nothing changes |
| Game.OnRestart | src/main.js:506-516 | restart sets health to 100 and score to 0, carries immunity and both timers over, and enters the game scene |
| Game.Step | src/main.js:101-516 | in the game scene a restart does nothing, and only a frame's end leaves the scene or writes the storage; in the game-over scene only a restart acts, and it enters the game scene with no request pending, health 100, score 0 and the storage untouched |
| Game.FrameEndRecords | src/main.js:459-470 | the end of a frame with pending requests stores the board after one recording per request and shows that board |
| Game.DrainAndContactInOneFrame | src/main.js:257-366 | a frame whose drain empties health, followed by contact with the enemy while not immune, records the final score twice |
| Game.StepPreservesValid | src/main.js:319-366 | every handler keeps health in 0..100, the accumulators below their periods, immunity within 5 s, collectibles live, and the shown board ordered and at most three long |
| Game.RunPreservesValid | src/main.js:319-366 | these bounds hold after any sequence of engine events with non-negative deltas |
| Game.StepNeverLowersScore | src/main.js:240-348 | no handler except restart lowers the score |
| Game.ScoreNeverDecreasesDuringGame | src/main.js:240-348 | between restarts the score never decreases |
| Game.LossConditions | src/main.js:257-261 | with no game over pending, enemy contact ends the game at the frame's end exactly when the player is not immune, and the fall-off check ends it exactly when a body fell off |
| Game.GameOverIgnoresPlay | src/main.js:459-517 | the game-over scene reacts only to a restart |
| Game.FiveOneSecondFrames | src/main.js:238-366 | five one-second frames from a fresh start give score 10 and health 90, with 2 s left on the drain accumulator |
| Title.FirstToken | www/title.js:2 | the token is a prefix of the host with no `.`, and it ends at the first `.` or at the end of the host |
| Title.DashesToSpaces | www/title.js:5 | same length; position by position a `-` becomes a space and every other character is unchanged; no `-` remains |
| Title.SiteTitle | www/title.js:2-5 | the title is as long as the first token, has neither `-` nor `.`, and shows the host's characters with dashes as spaces |
| Title.PlainHostIsItsOwnTitle | www/title.js:2-5 | a host with no `.` and no `-` is its own title |
| Title.TitleIsIdempotent | www/title.js:2-5 | the title of a title is the title itself |
| Title.TitleIgnoresDomain | www/title.js:2-5 | everything after the first `.` has no effect on the title |

## Left out

- Rendering, sprites, sounds, text objects, opacity and colours. These are engine calls. Only the colour band's choice is modelled.
- Physics, gravity, movement, the player's sideways clamp and collision detection itself. The engine reports only the resulting contacts and positions.
- Enemy chase and random jumps. These are vector maths and `Math.random`.
- Spawn scheduling: the random 3-6 s wait and the 10% power-up roll. A `Spawn` event carries "a wave, with or without a power-up" as input.
- The order of engine events within a frame. The caller gives the events in the order the engine delivers them. The two update handlers are applied together as one `Frame` event, in their registration order.
- Keyboard and touch controls, mobile detection, and orientation and DOM handling.
- localStorage and JSON. A stored value that does not parse makes `JSON.parse` throw, and the code has no recovery, so there is no such case in the model. Stored entries that are not numbers are not modelled either.
- The `toFixed` formatting of the immunity timer.
- Reading `window.location` and writing the title element. Only the string function is modelled.
- Two restarts in the same frame (key and click) would set up the game scene twice. This is not modelled.
- Floating-point rounding of the JavaScript timers, and the 2^53 limit on integers. Reals and unbounded integers replace them.
- PlayerState.ImmunityLastsItsTimer: covers frames' updates of the player alone. A power-up taken during the run is not included, and neither is the scene ending on game over.
