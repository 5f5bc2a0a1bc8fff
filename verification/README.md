# ManhattanProject game rules in Dafny

This project models the game-rule layer of ManhattanProject, a Panda3D game
written in Python 2 (`main.py`). The player controls a panda avatar. On
terrain levels it walks and jumps. On space levels it flies forward through
an asteroid field that is regenerated around it as it moves. Everything the
Panda3D engine does is replaced by plain fields: node positions, forces,
collision traversal, the global clock, widgets and fog. What remains is
stated over integers, reals and small enumerations.

The model has eight modules in six files:

- `Vectors` (`vectors.dfy`) holds three-component values (`Triple`, `Vec3`) and absolute values.
- `Wrappers` (`vectors.dfy`) holds `Option` and `Result`.
- `Seqs` (`vectors.dfy`) holds `Filter` and its lemmas.
- `Modes` (`modes.dfy`) has the display and play modes, plus the rule that picks the play mode from the level number.
- `AvatarModel` (`avatar.dfy`) covers the avatar's speed clamp, jump thrust, land-gap debounce and collisions.
- `Asteroids` (`asteroids.dfy`) covers asteroid birth and motion, and the asteroid manager: `genSuccession`, `initialize`, `inView` and `maintainAsteroidField`.
- `Camera` (`camera.dfy`) is the mouse-driven yaw and the pitch clamp.
- `Game` (`game.dfy`) covers the game container:
  - the display-mode machine;
  - the physics pause;
  - level loading, advancing and reset;
  - one pass of the game loop;
  - the menu button layout.

Modelling choices:

- **Randomness is a stream.** Every random value is taken from a stream `Rng = nat -> Draw`. The asteroid spawned n-th consumes draw n: its model choice, three jitter magnitudes and signs, three drift and three spin values.
- **Succession interval.** The interval `int(5 / log(level))` is taken as a positive integer per axis.
- **`calcLimits`.** Its speed limits and accelerations (main.py:100-108) are the constants of `AvatarModel`, because `calcLimits` ignores its level argument.
- **What the loops append.** The spawning loops are specified by the exact sequence they append:
  - `Cell` is the asteroid one grid cell spawns.
  - `Succession` is what one `genSuccession` call appends: the cells column by column, each column in row order, cell (c, r) taking draw c·|rows|+r.
  - `Blocks` is what one axis's spawn loop appends: the succession at each spawn point in turn, block j taking its draws j successions after the loop's first.
  - `SpawnedField` is what `maintainAsteroidField` spawns: the X blocks, then the Y blocks, then the Z blocks, with the draws consumed in that order.
  - `SpawnedFieldBlocks` and `BlocksCell` read any spawned asteroid of the maintained field back to its axis, spawn point, grid cell and draw.
- **Error paths.** `maintainAsteroidField` has two, and both are modelled as `Result` failures:
  - `EmptyField`: `min`/`max` of an empty list.
  - `ZeroSpawnBound`: `bound/abs(bound)` with a zero bound. This happens on the Y axis whenever the avatar's Y speed is positive, because the low depth bound is 0.

Four behaviours of the code that are easy to misread; the model follows the code:

- **Thrust length.** A jump thrust lasts `jumpThrustInterval + 1` calls of `move`. The counter counts 0 to 10, and one more move removes the force.
- **Initialize depth.** `initialize` places every succession at depth 28. Its loop variable only counts the calls, up to the height bound 15.
- **`inView` duplicate test.** The last test of `inView` repeats the one before it, so nothing culls an asteroid for being too high or too deep.
- **Reset keeps the jump force.** `Avatar.reset` does not remove a jump force that is still attached.

## Model

| member | source | states |
|---|---|---|
| Modes.PlayModeOf | main.py:678-680 | a level is played on terrain exactly when it has no fractional part (`int(level) == level`) |
| Modes.LevelsAlternate | main.py:678-680 | the levels 1.5, 2, 2.5, … alternate space, terrain, space, … |
| Modes.NextLevelMode | main.py:540-544 | half a level on from the n-th level after 1.5 is terrain for even n and space for odd n |
| AvatarModel.Reset | main.py:86-98 | reset gives zero speed and yaw, not landed, gap 0, no thrust with the counter at the interval, alive; an attached jump force stays attached |
| AvatarModel.NewAvatar | main.py:78-84 | a new avatar is alive, within the counter bounds, with no force attached |
| AvatarModel.Move | main.py:110-126 | while thrusting the avatar is airborne and the counter climbs to the interval; the move after it ends the thrust and removes the force; otherwise nothing changes; the counter bounds and force/thrust agreement are kept |
| AvatarModel.Accelerate | main.py:130-146 | d adds the mode's X acceleration to the X speed and a subtracts it, and the two cancel when both are held (in space that acceleration is -1); w and s do the same on the forward axis (Y on terrain, Z in space); terrain leaves Z alone; space pins Y to -8 |
| AvatarModel.Clamp | main.py:150-156 | a component within the bound is kept; otherwise it becomes the nearer of ±bound, with -bound on a tie; the result lies within the bound |
| AvatarModel.HandleKeys | main.py:128-176 | every component stays within its mode's speed limit and is snapped to the limit it overshoots; terrain Z speed is 0; space Y speed is -8; a thrust starts exactly when space is held while landed and idle; the land gap climbs below 5 and clears `landed` at 5; invariants kept |
| AvatarModel.HandleCollisionEvent | main.py:184-202 | entering ground lands and clears the gap; leaving ground sets the gap to 1; entering an asteroid kills; any other event changes nothing |
| AvatarModel.ThrustContinues | main.py:110-126 | from counter c, the next interval-c moves keep the thrust going and count up by one each |
| AvatarModel.ThrustWindow | main.py:158-172 | a thrust started by the space key is still on after 10 moves and is over, with the force removed, after 11 |
| AvatarModel.LandGapCountdown | main.py:174-176 | after leaving ground, with no jump, the gap climbs one per frame up to 5, and the avatar stays landed until a frame starts with the gap at 5 |
| AvatarModel.RunKeepsInvariants | main.py:184-202 | no sequence of moves, key frames and collisions revives a dead avatar; the counter bounds and force/thrust agreement hold throughout |
| AvatarModel.AsteroidHitThenReset | main.py:196-198 | an asteroid hit kills the avatar and a reset revives it |
| Asteroids.Jitter | main.py:222-224 | a jittered coordinate lies strictly within the deviation of its grid value |
| Asteroids.NewAsteroid | main.py:218-227 | a new asteroid is within the deviation of its grid point on every axis, with drift in [0, 1) and spin in [0, .1) per axis |
| Asteroids.MoveAsteroid | main.py:240-244 | each coordinate moves by drift plus avatar speed, times dt; drift, spin and model are kept |
| Asteroids.MoveComposes | main.py:240-244 | two moves at the same avatar speed equal one move over the summed time |
| Asteroids.MoveAll | main.py:342 | every asteroid is moved, in place and in order |
| Asteroids.RangeShape | main.py:290-294 | `range(start, stop, step)` is empty exactly when start ≥ stop, else start, start+step, … below stop, ending within one step of stop |
| Asteroids.GridLineShape | main.py:290-294 | a grid line runs from the field's low bound in interval steps to its high bound or less than one interval past it |
| Asteroids.BasePoint | main.py:296-300 | a grid point carries the distance on the spawn axis, the column on the next axis and the row on the one after |
| Asteroids.SpawnInSlab | main.py:296-303 | an asteroid spawned at a grid cell lies within the deviation of the spawn distance and within the jittered grid extent |
| Asteroids.Cell | main.py:296-303 | the asteroid a grid cell spawns lies in its succession's slab |
| Asteroids.ColumnsCell | main.py:290-322 | in the first c columns, cell (ci, ri) with ci < c sits at flat index ci·\|rows\|+ri and is the asteroid that cell spawns |
| Asteroids.SuccessionCell | main.py:282-322 | every cell (c, r) of a succession sits at index c·\|rows\|+r, is the asteroid its grid cell spawns with draw seed + c·\|rows\|+r, and lies in the slab |
| Asteroids.GenColumn | main.py:293-322 | the inner loop appends exactly one column after the existing asteroids: the asteroid of each row's cell, in row order; everything it appends lies in the slab |
| Asteroids.GenColumns | main.py:290-322 | the outer loop appends the columns one after another, which is exactly the succession, and everything it appends lies in the slab |
| Asteroids.GenSuccession | main.py:282-322 | a succession appends exactly `Succession` after the existing asteroids, which stay a prefix: \|cols\|·\|rows\| asteroids, columns outermost, cell (c, r) at c·\|rows\|+r past the old end being the asteroid that cell spawns; it consumes that many draws; all of them lie in the succession's slab |
| Asteroids.Initialize | main.py:260-280 | initialize calls genSuccession once per step of the Y interval below the height bound 15, each on Y at depth 28; the field is exactly those successions in order, each drawing right after the one before it from the first draw, so it is non-empty and lies in the depth-28 slab |
| Asteroids.AddDepthSuccession | main.py:274-280 | one pass of the initialize loop appends the next depth-28 Y succession, keeping the field equal to the successions made so far with consecutive draws |
| Asteroids.InView | main.py:324-336 | an asteroid is in view exactly when it is within the buffered X breadth, at or in front of the lens (y ≥ 4 − camDist), and at or above the buffered Z low bound; nothing bounds Y or Z from above |
| Asteroids.InViewHasNoUpperBounds | main.py:324-336 | moving an asteroid higher or deeper, or pulling the camera back, never culls it |
| Asteroids.SpawnedInView | main.py:324-336 | an asteroid spawned around a grid point is in view when the jitter-widened point passes the breadth, lens and low-height tests |
| Asteroids.DepthSlabInView | main.py:324-336 | every asteroid of a Y succession is in view once the camera sees back to the slab's near face |
| Asteroids.InitialFieldInView | main.py:274-280 | the initial field is entirely in view for any camera distance of at least -19 |
| Asteroids.SurvivorsAreInView | main.py:340 | the filter keeps exactly the in-view asteroids, each as often as before and in order, and filtering distributes over concatenation |
| Asteroids.MinCoord | main.py:344-346 | `min` with a coordinate key returns an attained coordinate no greater than any other |
| Asteroids.MaxCoord | main.py:344-346 | `max` with a coordinate key returns an attained coordinate no less than any other |
| Asteroids.SpawnDirection | main.py:356 | `bound/abs(bound)` is 1 for a positive bound and -1 for a negative one |
| Asteroids.BlocksCell | main.py:358-362 | block j of a spawn loop's output is the succession at the j-th spawn point: its cell (c, r) sits j·size + c·\|rows\| + r in, is the asteroid that cell spawns with its draws starting j·size after the loop's first, and lies in that point's slab |
| Asteroids.BlocksAppend | main.py:358-362 | one more spawn point appends its succession, drawing right after the earlier blocks |
| Asteroids.SpawnToward | main.py:358-362 | the spawn loop terminates; it steps from the start point by ±interval; each step starts strictly inside the bound's magnitude; it stops at or beyond it; after the existing asteroids it appends exactly `Blocks` at those points: one succession per point, in order, consuming \|points\|·size draws; every added asteroid lies in the slab of one of the points |
| Asteroids.SpawnedFieldLayout | main.py:348-362 | the three axis loops run in turn leave the live field in front, followed by the spawned field, and their draws end \|X blocks\| + \|Y blocks\| + \|Z blocks\| after the first |
| Asteroids.SpawnedFieldBlocks | main.py:348-362 | in the maintained field, the i-th asteroid spawned on an axis sits i past the moved survivors and the earlier axes' blocks (none before X; the X blocks before Y; the X and Y blocks before Z), and it is the i-th asteroid of that axis's blocks drawn from where the earlier axes' draws end |
| Asteroids.SpawnAllAxes | main.py:348-362 | X, Y and Z are filled in turn from the live field's edge toward the selected bounds; the live field stays a prefix and exactly `SpawnedField` follows it: the X blocks, then the Y blocks, then the Z blocks, with the draws consumed in that order |
| Asteroids.MaintainAsteroidField | main.py:338-362 | an empty in-view field fails, and so does a positive Y speed (zero bound); otherwise the interval is kept and the result is the moved survivors, in order, followed by exactly the X, Y and Z blocks spawned up to each axis's bound |
| Camera.YawStep | main.py:945-947 | the yaw turns against the horizontal mouse shift (down for a shift right, up for a shift left, unchanged when still) by .4 per pixel |
| Camera.YawComposes | main.py:945-947 | the yaw is unbounded: two shifts turn it as far as one shift of their sum |
| Camera.PitchStep | main.py:961-971 | the pitch follows the mouse shift times .25, against it, and is stopped at ±20 |
| Camera.PitchIsNearest | main.py:961-971 | the clamped pitch is the nearest point of [-20, 20] to the shifted pitch, and a still mouse keeps an in-range pitch |
| Camera.PitchSettles | main.py:961-971 | clamping again with a still mouse changes nothing |
| Game.Initial | main.py:410-433 | the game starts in PLAY on level 1.5 (space), uninitialised, unpaused, with no key held and a live avatar |
| Game.TogglePhysicsPause | main.py:828-845 | the first toggle saves the frame time, freezes the clock and stops particles; the next restores the saved frame time and restarts them; nothing else changes |
| Game.Tick | main.py:834-836 | a frozen clock does not advance; a running one advances by dt |
| Game.TicksWhilePaused | main.py:834-836 | any time passing while paused leaves the game unchanged |
| Game.PauseRoundTrip | main.py:828-845 | pause, any ticks, resume returns the clock to the frame time at the pause, unpaused |
| Game.SwitchDisplayMode | main.py:510-538 | the new display is set and left uninitialised; the clock toggles exactly for IN_GAME_MENU→PLAY and PLAY→IN_GAME_MENU; fog lifts on IN_GAME_MENU→PLAY; play state is untouched |
| Game.ProcessKeys | main.py:490-504 | escape switches PLAY to IN_GAME_MENU and back, does nothing in other displays, and is always released |
| Game.LoadLevel | main.py:662-692 | the play mode follows the level; a reset space level resets the avatar in place; every other load makes a new one; terrain starts the physics managers |
| Game.ResetLevel | main.py:656-660 | restart lands in PLAY, uninitialised, on the same level with a live avatar; from the death screen the pause and fog are untouched |
| Game.AdvanceLevel | main.py:540-544 | the level grows by 0.5, and the play mode and a new avatar follow it |
| Game.AdvanceAlternates | main.py:540-544 | starting from 1.5, the n-th advance loads terrain for odd n and space for even n |
| Game.PlayFrame | main.py:889-971 | a dead avatar switches to DEAD; a live one moves (terrain only), steers by the keys, turns by the mouse, and keeps the pitch clamped |
| Game.Frame | main.py:847-989 | one loop pass: keys first, then the resulting display's branch; escape in PLAY reaches the fogged in-game menu; an initialised paused menu is left untouched; PLAY goes to DEAD exactly when the avatar is dead; DEAD stays DEAD |
| Game.InitialCoherent | main.py:410-433 | the start state is coherent |
| Game.StepCoherent | main.py:490-538 | every reachable event keeps the state coherent: paused ⇔ IN_GAME_MENU with particles off, fog only in the menu and always once it is up, never MAIN_MENU, DEAD ⇒ avatar dead, avatar counters and pitch in range |
| Game.RunCoherent | main.py:490-538 | every run of events from a coherent state stays coherent |
| Game.RunDeadStep | main.py:184-202 | no event but Restart revives a dead avatar |
| Game.DeathIsTerminalUntilRestart | main.py:630-660 | a dead avatar stays dead through any run without the Restart button |
| Game.EscapeTwice | main.py:490-538 | escape in play pauses at the current frame time; escape again resumes at that same time, fog lifted |
| Game.EvenButtonPositions | main.py:546-560 | n positions (none for n ≤ 0) decrease by the spacing and pair up from both ends to the button height, so the first and last sum to it |
| Game.CenteredStart | main.py:548-552 | the top position, with Python 2 floor division for (n-1)/2, is half of (n-1)·spacing + height |
| Game.Symmetric | main.py:554-558 | evenly stepped positions whose ends sum to the height pair up to it from both ends |

## Left out

- Engine effects are not modelled: node creation, model loading, collision solids and traversal, the skybox, textures, fog objects, cursor hiding and widget construction (`buildMainMenu`, `buildInGameMenu`, `buildDeathScreen`, `cleanupGUI`). Display state keeps only what the rules read: the display, `mode_initialized`, the fog flag and the paused clock.
- The position update in `Avatar.move` (main.py:112) is relative to the avatar's rotated node frame. It needs the engine's transform and is left out; `move` is modelled on the jump counter only.
- `Avatar.applyFriction` has no caller and is left out.
- The camera position (sin/cos of yaw, main.py:973-985) and mouse recentring against the window centre are left out. The mouse shifts reach `Game.Frame` as parameters.
- `zoomCamera` and `handleWindowEvent` are left out. The camera distance reaches `MaintainAsteroidField` as a parameter.
- The difficulty `1/log(level)` (main.py:267-270) is floating-point transcendental. The succession interval is a positive integer parameter of `Initialize`, so the level-1 division by zero and the zero interval of large levels are outside the model.
- `Asteroid.orient`, `Asteroid.rotate`, `GameObject.getWrappedSphere` and the collision sphere of each asteroid are engine orientation and bounds.
- `Game.Frame` does not carry the asteroid manager. The SPACE branch's `maintainAsteroidField` call is `Asteroids.MaintainAsteroidField`. The field `loadLevel` builds is `Asteroids.Initialize`.
- Asteroids.MaintainAsteroidField: on `ZeroSpawnBound` the source has already filtered and moved the field and filled the X axis before the division fails. The model reports the failure without that partial state.
- Asteroids.MoveComposes: holds only in exact arithmetic. Python floats and Panda3D's single-precision `Vec3` (positions, speeds, `dt`, pitch, frame time) are modelled as exact reals, and with rounding two float moves can differ from one combined move.
- The avatar position argument of `maintainAsteroidField` is unused by the source and is omitted.
- `maintainTurrets` is empty, and the main menu is never built. Its construction is commented out and no button leads to it, so the main menu display is modelled but is unreachable.
- Python's `print` of the window centre and the particle effect of the main menu are output only.
- `generateTerrainModel.py` is a separate asset script and is not part of this model.
