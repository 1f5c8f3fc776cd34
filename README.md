# Endless runner: game-logic model

A Dafny model of the per-frame logic of a small browser "endless runner"
(`evaluacion_js_2/index.js`). A dino stands on the bottom edge of a canvas and
jumps over a cactus that slides in from the right. Each frame, the game does
these steps in order:

1. Add one point to the score.
2. Keep the best score as a running maximum.
3. Raise the speed by one at every positive multiple of 100 points. The
   `lastMilestone` marker keeps this from firing twice at the same score.
4. Integrate the jump: add gravity 0.5 to the velocity, then the velocity to
   the position, and land on the ground line.
5. Move the cactus left by the current speed. Once it has left the screen,
   recycle it up to 200 units past the right edge.
6. End the run when the two bounding boxes overlap.

The jump key works only when the dino is on the ground and the run is live.
The restart button starts a new run and keeps the best score.

The project has three modules:

- `Geometry` (`geometry.dfy`): rectangles and the strict overlap test `Collides`.
- `Rules` (`rules.dfy`): the rules as pure functions on a `Snapshot`, the value
  of all mutable game state. It holds one frame (`Tick`), the jump (`Jump`), the
  restart (`Reset`), the startup state (`Initial`) and several frames in a row
  (`Run`). The invariant `Inv` holds in every reachable snapshot, and the lemmas
  prove the game's promises about these functions.
- `Runner` (`game.dfy`): the program's own state. `Game` holds the module-level
  variables, and the classes `Dino` and `Obstacle` hold the two objects that
  the handlers change in place. Each of the methods `Update`, `KeyDown` and
  `Restart` is proved to change the state exactly as its `Rules` function says,
  and to keep `Inv`.

Positions and velocities are exact `real`s. Because gravity is 0.5, the
dino's velocity stays a multiple of one half. The invariant records this, and
it is what bounds the top of the jump at 95 units above the ground. Canvas width
and height come from the page, so they are constructor parameters. The draw
`Math.random() * 200` is an argument `r` with `0 <= r < 200`. The best score
read from storage at startup is an `int` argument.

One might expect the best score to be at least every score. But the code takes
any number from storage, and a stored negative value gives a startup state with
`highScore < score`. The invariant is therefore `score == 0 || score <= highScore`.
After the first frame of a run, `highScore >= score` always holds (`Rules.Tick`).

## Model

| member | source | states |
|---|---|---|
| `Geometry.CollidesIffSharedPoint` | evaluacion_js_2/index.js:99-106 | for rectangles with positive area, the four strict inequalities hold iff the rectangles share an interior point (both directions) |
| `Geometry.CollidesSymmetric` | evaluacion_js_2/index.js:99-106 | the overlap test gives the same answer with its arguments swapped |
| `Geometry.TouchingEdgesDoNotCollide` | evaluacion_js_2/index.js:99-106 | rectangles that only share an edge on either axis do not collide |
| `Geometry.CollidesExamples` | evaluacion_js_2/index.js:99-106 | the box at (5,5) overlaps the 10x10 box at the origin; the box at (10,0), which only touches it, does not |
| `Rules.Initial` | evaluacion_js_2/index.js:5-34 | the startup state (score 0, speed 5, marker 0, not over, dino grounded at rest, cactus at the right edge) satisfies the game invariant |
| `Rules.NextBest` | evaluacion_js_2/index.js:60-63 | the new best is at least the old best and at least the score, and is one of the two (a running maximum) |
| `Rules.Fall` | evaluacion_js_2/index.js:76-84 | a grounded dino is untouched; a jumping dino lands exactly when its new position `y + vy + 0.5` reaches the ground line, and otherwise stays airborne; after a frame the dino is on or above the ground; a landing puts it exactly on the ground with zero velocity, not jumping; in the air, velocity gains gravity and position gains the new velocity |
| `Rules.Advance` | evaluacion_js_2/index.js:87-90 | the cactus moves left by exactly the speed, unless that puts its right edge past the left edge, in which case it goes to `width + r` |
| `Rules.Tick` | evaluacion_js_2/index.js:53-97 | a finished game is unchanged; otherwise the score gains exactly one and the best is at least the new score; the best never falls; the run ends exactly when the moved boxes overlap |
| `Rules.Jump` | evaluacion_js_2/index.js:148-150 | when grounded and live, the velocity becomes -10 and the dino is airborne, with its position kept; otherwise nothing changes; nothing but the dino ever changes |
| `Rules.Reset` | evaluacion_js_2/index.js:159-168 | restart gives exactly the startup state, with the best score carried over |
| `Rules.MilestoneDue` | evaluacion_js_2/index.js:66 | the speed-up guard fires only at a score of at least 100 (never at 0) that differs from the recorded marker |
| `Rules.MilestoneStep` | evaluacion_js_2/index.js:66-73 | with the marker at the last multiple of 100 reached, the speed-up is due at the next score iff that score is a multiple of 100, and then `score / 100` rises by one |
| `Rules.RiseStep` | evaluacion_js_2/index.js:76-78 | one integrator step raises the arc height function by exactly the new velocity |
| `Rules.FallKeepsMotionInv` | evaluacion_js_2/index.js:76-84 | the integrator keeps the dino on or above the ground, on its launch arc, with velocity on the half-unit grid; a grounded dino stays at rest |
| `Rules.AdvanceBounds` | evaluacion_js_2/index.js:87-90 | at positive speed with `0 <= r < 200`, the cactus stays within `[-25, width + 200)`, and it is either moved by the speed or placed at or beyond the right edge |
| `Rules.RecycleExample` | evaluacion_js_2/index.js:87-90 | at speed 5, a cactus one unit past the left edge reappears at or beyond the right edge |
| `Rules.TickPreservesInv` | evaluacion_js_2/index.js:53-97 | every frame keeps the invariant: score >= 0; the best covers the score; marker = last multiple of 100 reached; speed = 5 + score / 100; dino grounded at rest or on its arc; cactus in its band; game over only while the boxes overlap |
| `Rules.TickSpeed` | evaluacion_js_2/index.js:66-73 | in a live frame the speed rises by one exactly when the new score is positive, a multiple of 100 and not the marker, and then the marker becomes the score; otherwise the speed is unchanged |
| `Rules.ApexBound` | evaluacion_js_2/index.js:76-84 | in every reachable state the dino is between the ground and 95 units above it |
| `Rules.JumpTwice` | evaluacion_js_2/index.js:148-150 | a second jump request, made in mid-air or after the game has ended, does nothing |
| `Rules.JumpPreservesInv` | evaluacion_js_2/index.js:147-156 | the jump keeps the invariant |
| `Rules.ResetPreservesInv` | evaluacion_js_2/index.js:159-168 | the restart establishes the invariant from any state |
| `Rules.Run` | evaluacion_js_2/index.js:45-51 | the repeated `update` calls of the frame loop, one per random draw; across any number of frames without a restart, neither the score nor the best score falls |
| `Rules.RunFrozen` | evaluacion_js_2/index.js:55 | game over is absorbing: any number of frames leaves a finished game unchanged |
| `Rules.RunScore` | evaluacion_js_2/index.js:53-63 | over n frames the score gains exactly n if the run is still live at the end, and at most n otherwise; the best never falls |
| `Rules.RunPreservesInv` | evaluacion_js_2/index.js:53-97 | any sequence of frames with valid random draws keeps the invariant |
| `Rules.RunSpeedUps` | evaluacion_js_2/index.js:66-73 | from a fresh start, after any frames the speed is 5 + score / 100: exactly one speed-up per hundred points |
| `Runner.Dino.constructor` | evaluacion_js_2/index.js:20-27 | the dino starts at the given ground line, at rest, not jumping |
| `Runner.Dino.Fall` | evaluacion_js_2/index.js:76-84 | the in-place jump step changes the dino's vertical state exactly as `Rules.Fall` |
| `Runner.Obstacle.constructor` | evaluacion_js_2/index.js:29-34 | the cactus starts at the right edge, standing on the bottom edge |
| `Runner.Obstacle.Advance` | evaluacion_js_2/index.js:87-90 | the in-place move changes `x` exactly as `Rules.Advance` |
| `Runner.Game.constructor` | evaluacion_js_2/index.js:5-34 | the game starts valid, in the startup state, with the stored best score |
| `Runner.Game.Update` | evaluacion_js_2/index.js:53-97 | one frame keeps the invariant and changes the state exactly as `Rules.Tick`; a finished game is untouched; otherwise the score gains one and the best covers it |
| `Runner.Game.KeyDown` | evaluacion_js_2/index.js:147-156 | the Space key acts as `Rules.Jump`; any other key changes nothing; the invariant is kept |
| `Runner.Game.Restart` | evaluacion_js_2/index.js:159-170 | the click handler keeps the invariant and returns the game to the startup state, with the previous best score |

## Left out

- Drawing (`draw`, lines 109-144) is left out. It only renders to the canvas and never changes game state.
- Audio (the jump and milestone cues, and their `currentTime` resets and `play()` calls) is left out. Playback is fire-and-forget, and failures are swallowed.
- Storage is only partly modelled. The startup read is the `int` argument `storedBest`. A stored fraction is not modelled: `Number` would give a non-integer there. The write on every new best has no effect on game state, so it is left out.
- DOM work is left out: `getElementById`, hiding and showing the restart button, `preventDefault`, listener registration and `window.onload`.
- `gameLoop` and `requestAnimationFrame` are left out because the host schedules them. `Rules.Run` stands for several frames in a row with no input between them.
- `Math.random` is left out. Its scaled value is the argument `r`, which must satisfy `0 <= r < 200`.
- Floating point is not modelled. JavaScript numbers are doubles, and the model uses exact reals and unbounded integers. Scores beyond 2^53 and the rounding of a random fractional obstacle position are therefore not captured.
