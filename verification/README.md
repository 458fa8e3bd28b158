# Play loop of the dino runner

A Dafny model of the play scene of a Phaser dino-runner game (`src/scenes/PlayScene.tsx`):
the per-frame `update` (timers, score, speed modifier, obstacle spawning, scrolling,
culling, cloud wrap, ground scroll), `spawnObstacle`, the start sequence driven by the
start-trigger overlap and the ground ramp timer, the restart handler, and the
obstacle-collision handler with its high-score comparison on the displayed texts.

Files:

- `decimal.dfy` (module `Decimal`): the five-digit score display (`String(score)`, the
  zero-padding loop), JavaScript's `Number(...)` and `>` on those texts, `slice(-5)` and
  the `"HI "` label.
- `world.dfy` (module `World`): obstacles, the spawn rule, the shift-and-cull of one frame
  (corrected, and as written), clouds with their drift and wrap.
- `play.dfy` (module `Play`): the scene state, `Step` (one `update`), `GameOver`,
  `Restart`, `StartOverlap`, `RampTick`/`Ramp`, the invariant every reachable state keeps.
- `runs.dfy` (module `Runs`): event sequences, and the cadence of the score and spawn
  timers over many frames of equal length.

Units: time in whole milliseconds; the speed modifier in tenths (1.0 is 10, +0.2 is 2);
horizontal positions in tenths of a pixel, so that the half-pixel cloud drift and
`gameSpeed * gameSpeedModifier` are exact integers. Vertical positions and texture sizes
are in pixels. The random numbers `spawnObstacle` draws are a parameter (`World.Draw`),
constrained to the ranges `Phaser.Math.Between` returns. Screen size, preloaded texture
counts and texture widths are a parameter (`World.Config`).

Behaviour of the code that is easy to misread, and that the model keeps as written:

- The score timer drops the excess of a frame: over a run with frames of `d` ms the score
  rises once every `ceil(100 / d)` frames (`Runs.Cadence`), not once per 100 ms of total
  elapsed time.
- The ground's `tilePositionX` only accumulates; nothing in the scene wraps it.
- None of the handlers checks the current state: a collision, a restart press or a trigger
  overlap acts whatever the scene is doing, and `Restart` leaves score, timers and
  modifier as they were.
- The high score is read back from the text on screen. The score display can be stale
  (after a restart, until the next frame). Past 99999 the display has six digits and is
  written into the high-score label whole ("HI 100000"); the next game-over reads that
  label back through `slice(-5)` as 00000, so any later score replaces it
  (`Play.HighScoreTruncatedPast99999`, `Play.ZeroHighScoreReplaced`).

One exception: the frame step removes off-screen obstacles with the corrected removal
(`World.Cull`), not with the loop as written, which can skip an obstacle; see
"## Findings" and "## Left out".

## Model

| member | source | states |
|---|---|---|
| Decimal.ScoreText | src/scenes/PlayScene.tsx:82-84 | the display is all digits, at least five long, and exactly five long precisely when the score is below 100000 |
| Decimal.ScoreTextValue | src/scenes/PlayScene.tsx:82-84 | the display reads back (digit by digit, as `Number` would) as the score itself |
| Decimal.ScoreTextOfValue | src/scenes/PlayScene.tsx:82-84 | every five-digit text is the display of its own numeric value (inverse direction of the round trip) |
| Decimal.ScoreTextRoundTrip | src/scenes/PlayScene.tsx:237-241 | below 100000 the display is five digits, `Number` of it is the score, and `slice(-5)` of `"HI " + display` gives the display back |
| Decimal.DecimalStringLength | src/scenes/PlayScene.tsx:82 | `String(n)` has at most k digits exactly when n < 10^k |
| Decimal.SliceLast | src/scenes/PlayScene.tsx:237 | `slice(-k)` yields the last min(k, length) characters of the text, and the whole text for k = 0 (`slice(-0)` is `slice(0)`) |
| Decimal.ParseNumber | src/scenes/PlayScene.tsx:238-239 | `Number(text)` is a number exactly when the text is all digits, and then one below 10 to the power of the text's length; otherwise NaN |
| Decimal.ValueBound | src/scenes/PlayScene.tsx:238-239 | a digit string of length n reads as a number below 10^n |
| Decimal.Greater | src/scenes/PlayScene.tsx:239 | `a > b` holds only between two numbers, the first larger, and never between equal readings (NaN included) |
| Decimal.GreaterOrder | src/scenes/PlayScene.tsx:239 | `>` is false in both directions when either side is NaN, and on numbers it is a strict total order (irreflexive, asymmetric, transitive, one of two orders or equality) |
| Decimal.HighScoreLabel | src/scenes/PlayScene.tsx:241 | the label is three characters longer than the digits and its last five characters give back five digits |
| World.Spawn | src/scenes/PlayScene.tsx:166-181 | a new obstacle lies 150 to 300 px beyond the right edge, at exactly the drawn distance; it is a bird exactly when the draw is past the cactus count, a bird flies 20 or 70 px above the ground, a cactus is the drawn variant standing on the ground |
| World.AdvanceObstacles | src/scenes/PlayScene.tsx:79-91 | one frame never adds obstacles and leaves none whose right edge is left of the screen |
| World.AdvanceObstaclesContents | src/scenes/PlayScene.tsx:79-91 | an obstacle survives the frame exactly when its shifted position is still on screen, and every survivor is an input obstacle shifted left by the frame's shift |
| World.ShiftLeftCounts | src/scenes/PlayScene.tsx:79 | `IncX` by one amount carries each obstacle's count over to its shifted copy |
| World.AdvanceObstacleCounts | src/scenes/PlayScene.tsx:79-91 | after one frame an on-screen obstacle occurs as often as its unmoved position did before, an off-screen one not at all |
| World.AdvanceWithArrivals | src/scenes/PlayScene.tsx:74-91 | the same, for the obstacles already there and the ones appended in this frame alike |
| World.Cull | src/scenes/PlayScene.tsx:86-91 | an obstacle is kept exactly when it was there and is on screen, and nothing is added |
| World.CullCounts | src/scenes/PlayScene.tsx:86-91 | every on-screen obstacle is kept as many times as it occurs, no off-screen one is kept |
| World.CullAppend | src/scenes/PlayScene.tsx:86-91 | removal distributes over concatenation, so the survivors keep their input order |
| World.CullIdempotent | src/scenes/PlayScene.tsx:86-91 | culling twice culls no more than once |
| World.CullAsWritten | src/scenes/PlayScene.tsx:86-91 | the loop as written (removing from the array `forEach` walks) never lengthens the group |
| World.CullAsWrittenKeepsOnScreen | src/scenes/PlayScene.tsx:86-91 | the loop as written adds nothing and keeps every on-screen obstacle |
| World.CullAsWrittenAgrees | src/scenes/PlayScene.tsx:86-91 | the loop as written removes exactly what the corrected cull removes when no two neighbouring obstacles leave the screen together |
| World.CullAsWrittenSkipsNeighbour | src/scenes/PlayScene.tsx:86-91 | two neighbouring off-screen obstacles: the loop as written keeps the second, the corrected cull removes both |
| World.AdvanceCloud | src/scenes/PlayScene.tsx:80-98 | a cloud keeps its height and size, drifts half a pixel left, and reappears 30 px past the right edge once its right edge passes the left edge |
| World.AdvanceCloudInBounds | src/scenes/PlayScene.tsx:80-98 | a cloud whose right edge is on screen and whose centre is not past the wrap point stays so after a frame, and it only moves left or to the wrap point |
| World.AdvanceClouds | src/scenes/PlayScene.tsx:93-98 | every cloud is advanced on its own and none is created or lost |
| Play.Init | src/scenes/PlayScene.tsx:19-26 | the created scene is not running and not ramping, has no obstacles, three clouds, the 88-pixel ground, the trigger at height 10, score 0 with modifier 1.0, a score display showing that score and a high score reading 0 |
| Play.Step | src/scenes/PlayScene.tsx:49-101 | nothing changes unless running; the score rises by one exactly when the score timer reaches 100 ms, which then restarts; the modifier rises by 0.2 exactly when the new score is a multiple of 100; the spawn timer restarts at 1500 ms; at most one obstacle appears; the display shows the new score; the ground scrolls by speed times the new modifier; high score, ramp and trigger are untouched |
| Play.StepClock | src/scenes/PlayScene.tsx:54-59 | in a running frame both timers are drop-excess timers and the score counts the score timer's firing |
| Play.StepObstacles | src/scenes/PlayScene.tsx:74-91 | after a frame, all obstacles are on screen, each old obstacle is there shifted by speed times the updated modifier exactly when that is on screen, the spawned one likewise, and nothing else is there |
| Play.StepObstacleCounts | src/scenes/PlayScene.tsx:74-91 | after a frame an on-screen obstacle occurs as often as its unmoved position did before, plus once if it is the one spawned in this frame; off-screen ones not at all |
| Play.StepClouds | src/scenes/PlayScene.tsx:80-98 | after a frame each cloud keeps its height and has drifted or wrapped |
| Play.GameOver | src/scenes/PlayScene.tsx:229-246 | the run stops; score, both timers and the modifier are reset, the base speed is not; the high score becomes `"HI "` plus either the displayed score or the last five characters of the old high score; everything else is untouched |
| Play.GameOverHighScore | src/scenes/PlayScene.tsx:237-241 | with a five-digit display the new high score is the larger of the displayed score and the old high score, so it never decreases |
| Play.GameOverIdempotent | src/scenes/PlayScene.tsx:229-246 | a second collision in a row changes nothing more |
| Play.HighScoreTruncatedPast99999 | src/scenes/PlayScene.tsx:237-241 | a run ending at 100000 over a high score of 99999 writes the label "HI 100000", whose last five characters read back as 0 |
| Play.ZeroHighScoreReplaced | src/scenes/PlayScene.tsx:237-241 | a label that reads back as 0 ("HI 100000" among them) is replaced by whatever five-digit score the next game-over shows |
| Play.GameOverKeepsHighWellFormed | src/scenes/PlayScene.tsx:237-241 | game-over keeps the high-score text ending in five digits |
| Play.Restart | src/scenes/PlayScene.tsx:218-227 | running again with no obstacles and no vertical velocity; score, timers, modifier, displays and all else untouched |
| Play.RestartIdempotent | src/scenes/PlayScene.tsx:218-227 | a second restart press changes nothing more |
| Play.RestartAfterGameOver | src/scenes/PlayScene.tsx:218-246 | restart after game-over resumes an empty world with score, timers and modifier initial, base speed and new high score kept |
| Play.StartOverlap | src/scenes/PlayScene.tsx:190-196 | at the creation height the overlap only moves the trigger to the ground line; otherwise it parks the trigger at (9999, 9999) and starts the ramp; nothing else changes |
| Play.RampTick | src/scenes/PlayScene.tsx:197-214 | the ground widens by 34 and the player runs at 80; once the width reaches the screen width it is clamped to it, the timer stops, the player stands and the run starts; the remaining distance shrinks by 34 each non-final tick |
| Play.Ramp | src/scenes/PlayScene.tsx:197-214 | the ramp always ends, with the run started, the ground exactly screen-wide, the player standing and nothing else changed |
| Play.RunRamp | src/scenes/PlayScene.tsx:197-214 | the ramp takes the least number of 34-pixel ticks that carries the ground from its width to the screen width |
| Play.InitValid | src/scenes/PlayScene.tsx:19-26 | the created scene is not running, has no obstacles and satisfies the invariant |
| Play.StepPreservesValid | src/scenes/PlayScene.tsx:49-101 | a frame keeps timers below their intervals, the modifier at 1 + 0.2 per 100 points, the base speed and the displays well formed |
| Play.GameOverPreservesValid | src/scenes/PlayScene.tsx:229-246 | game-over keeps the invariant |
| Play.RestartPreservesValid | src/scenes/PlayScene.tsx:218-227 | restart keeps the invariant |
| Play.StartPreservesValid | src/scenes/PlayScene.tsx:184-215 | the overlap, a ramp tick and the whole ramp keep the invariant |
| Play.StartSequence | src/scenes/PlayScene.tsx:184-215 | from the created scene the first overlap only moves the trigger, the second starts the ramp, and the ramp ends with the run started on a screen-wide ground with score 0 and no obstacles |
| Runs.ApplyPreservesValid | src/scenes/PlayScene.tsx:49-246 | every event handler keeps the invariant |
| Runs.RunPreservesValid | src/scenes/PlayScene.tsx:49-246 | along any sequence of events the modifier is always 1 + 0.2 * floor(score / 100), the timers stay below their intervals and the base speed stays 5 |
| Runs.ReachableValid | src/scenes/PlayScene.tsx:34-47 | every state reachable from the created scene satisfies the invariant |
| Runs.HighScoreNeverDecreases | src/scenes/PlayScene.tsx:237-241 | while the display stays at five digits no sequence of events lowers the high score |
| Runs.FramesPerFire | src/scenes/PlayScene.tsx:57 | a timer needs the least number of frames whose total reaches the interval |
| Runs.TimerCadence | src/scenes/PlayScene.tsx:54-59 | from zero, a drop-excess timer fires once every ceil(interval / delta) frames and holds the time since it last fired |
| Runs.FramesScoreTimer | src/scenes/PlayScene.tsx:54-59 | over n frames the scene keeps running, the score timer behaves as a drop-excess timer and the score counts its firings |
| Runs.FramesSpawnTimer | src/scenes/PlayScene.tsx:54-77 | over n frames the spawn timer behaves as an independent drop-excess timer |
| Runs.Cadence | src/scenes/PlayScene.tsx:54-77 | starting with both timers at zero, after n frames of d ms the score is up by n / ceil(100 / d) and each timer holds the frames since it last fired |

## Left out

- Rendering, alpha changes, tweens, animations, the progress sound and `physics.pause`/`resume`: they change nothing the loop reads.
- Collision and overlap detection by the physics engine: a collision or an overlap is an input event (`Runs.Event`), not derived from geometry.
- The player entity (`Player`, `playRunAnimation`, `die`) beyond the two velocities the scene sets; it is not part of this model.
- Randomness: `Phaser.Math.Between` is replaced by a `Draw` argument within its ranges.
- Floating point: `delta` is a whole number of milliseconds, and positions use tenths of a pixel; `gameWidth / 1.3` for the third cloud is rounded down to a tenth of a pixel.
- `Number(...)` on texts other than digit strings (whitespace, signs, exponents) is modelled as NaN; the displays never hold such texts.
- A second overlap while the ramp runs registers a second timer in the game; the model keeps one `rolling` flag, so two ramp timers ticking together are not modelled.
- `Runs.FramesScoreTimer`, `Runs.FramesSpawnTimer`, `Runs.Cadence`: stated for frames of equal length with the same draw; frames of varying length are covered only one at a time by `Play.Step`.
- Play.Step: removes off-screen obstacles with the corrected `World.Cull`; the loop as written is `World.CullAsWritten`, equal to it whenever no two neighbouring obstacles leave the screen in the same frame (`World.CullAsWrittenAgrees`).
- Play.StepObstacles: states the corrected removal of `Play.Step`, not the loop as written, which may keep an off-screen obstacle that follows a removed one.
- Play.StepObstacleCounts: counts under the corrected removal, for the same reason.
- World.AdvanceObstacles: uses the corrected removal; with the loop as written an off-screen obstacle can survive the frame.
- World.AdvanceObstaclesContents: states the corrected removal, which agrees with the loop as written under `World.NoAdjacentOffScreen`.
- World.AdvanceObstacleCounts: counts under the corrected removal, for the same reason.
- World.AdvanceWithArrivals: states the corrected removal, for the same reason.
- `Play.GameOverHighScore`: proved only for a five-digit score display; the six-digit case is shown by `Play.HighScoreTruncatedPast99999` instead.
- The texture wrap of the ground tile sprite is done by the renderer; the model keeps the raw `tilePositionX`.
- `vite.config.ts`: build configuration, no behaviour.

## Findings

| source | as written | input that shows it | evidently intended | confidence | as-written member | corrected member |
|---|---|---|---|---|---|---|
| src/scenes/PlayScene.tsx:86-91 | `forEach` runs over the group's live children array while `remove` splices it, so the obstacle right after a removed one is never examined in that frame | two neighbouring obstacles both off screen: the second one stays in the group | every obstacle past the left edge is removed in the frame it leaves | not executed; relies on `getChildren()` returning the group's own entries array, which `remove` splices | World.CullAsWritten, World.CullAsWrittenSkipsNeighbour | World.Cull |
