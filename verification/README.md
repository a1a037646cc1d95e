# cat_sim in Dafny

A model of the two integer-geometry state machines of the cat_sim
repository. Both are written as pure functions over immutable rectangle
records.

- **The open-field training environment `CatEnv`** (`cat_brain/rl_model.py`).
  A 50-pixel cat and a 30-pixel food square sit on an 800×600 screen.
  - `Step` applies the 4-pixel move chosen by a discrete action.
  - It flags `hit_wall` when the moved cat sticks out of the screen, then clips the cat's corner back into [0, 750]×[0, 550].
  - It ends the episode with reward 1000 when the cat overlaps the food.
  - Otherwise the reward is the negated centre distance divided by 1000, minus 5 when a wall was hit.
  - `Reset` places both squares at random corners.
  - `Observe` returns the four corner coordinates.
- **The scripted greedy chaser** (`cat_sim.py`). A cat created at the screen
  centre reads the corner offset to the food (`SenseFood`). Each frame it
  steps one pixel toward the food on each axis (`Tick`). `Ticks` iterates
  that frame rule, and `TicksUntilCaught` counts the frames until the
  corners coincide.

The files:

- `rects.dfy` (module `Rects`) models `pygame.Rect`. It covers the edges, the centre, `colliderect` and `get_rect(center=...)`.
- `numeric.dfy` (module `Numeric`) holds `Abs`, `Sign`, `Max` and numpy's `clip`.
- `cat_env.dfy` (module `CatEnv`) models `cat_brain/rl_model.py`.
- `cat_sim.dfy` (module `CatSim`) models `cat_sim.py`.

Choices made where the source leaves something open:

- **Random draws.** The four `np.random.randint` draws of `reset` are a `Spawn` record. `ValidSpawn` holds it to the half-open ranges `randint` produces.
- **The distance term.** The Euclidean distance in the reward is a parameter `dist` of `Step`. The only requirement on it is `dist >= 0`.
- **Reward arithmetic.** Reward arithmetic is exact `real` arithmetic.
- **`colliderect`.** It is strict interval overlap on both axes. Following pygame 2, a rectangle of zero width or height collides with nothing. `Rects.ColliderectIffSharedPixel` proves this is the same as "some pixel lies in both".

Behaviour of the code worth knowing:

- On leaving the screen, the code clips the cat flush with the crossed edge. It does not revert the move (`CatEnv.WallHitClipsNotReverts`).
- The catch reward is a flat 1000.
- `truncated` is always false.
- `step` before `reset` is not rejected. The constructor puts both squares at the origin, so the first step always catches the food (`CatEnv.StepBeforeResetCatches`).
- An action outside 0..3 is not rejected. It moves nothing.

## Model

| member | source | states |
|---|---|---|
| Numeric.Clip | cat_brain/rl_model.py:62-63 | `np.clip` with ordered bounds returns a value in the bounds. It leaves a value inside them unchanged and replaces one outside by the bound it crossed. |
| Rects.ColliderectIffSharedPixel | cat_brain/rl_model.py:72 | `colliderect` holds exactly when the two rectangles share a pixel. |
| Rects.CenteredAt | cat_sim.py:23 | `get_rect(center=(cx, cy))` yields a rectangle of the surface's size whose pygame centre is (cx, cy). |
| CatEnv.Initial | cat_brain/rl_model.py:26-27 | The constructed environment has both corners at the origin and both squares at their sizes, so they are on screen and already overlap. |
| CatEnv.Observe | cat_brain/rl_model.py:32-35 | The observation is [cat.x, cat.y, food.x, food.y], in that order. For a valid environment each component lies in the declared box [0, max(800, 600)]. |
| CatEnv.ObservationDeterminesState | cat_brain/rl_model.py:34-35 | For correctly sized squares, equal observations mean equal environments. |
| CatEnv.Reset | cat_brain/rl_model.py:37-48 | Reset keeps both sizes and moves the two corners to the drawn values, so the cat's corner is in [0,749]×[0,549] and the food's in [0,769]×[0,569]. The observation is the observation of the new state, equal to the four draws, and lies in the box. A correctly sized environment becomes valid. |
| CatEnv.Displace | cat_brain/rl_model.py:51-54 | Actions 0/1 move the cat vertically and 2/3 horizontally, by exactly 4 pixels. 0 and 2 go toward smaller coordinates and 1 and 3 toward larger ones. Any other action leaves the cat unchanged. |
| CatEnv.ClampToScreen | cat_brain/rl_model.py:56-63 | After the clip the corner is in [0,750]×[0,550] and the size is kept. Each in-range coordinate is unchanged. A crossed edge leaves the cat flush with that edge. For a 50-pixel cat the clip is a no-op exactly when `hit_wall` is false. |
| CatEnv.StepReward | cat_brain/rl_model.py:67-76 | A catch pays exactly 1000, overriding the other terms. Otherwise the reward is the distance over 1000, negated, less 5 on a wall hit. The reward is positive exactly when the cat caught the food. |
| CatEnv.Step | cat_brain/rl_model.py:50-80 | The food and the cat's size never change. The cat ends on screen whatever its prior position, and validity is preserved. A coordinate the move keeps in range is the displaced one; a crossed edge leaves the cat flush with that edge. For a 50-pixel cat the new position is the displaced one exactly when no wall was hit. `terminated` holds exactly when the squares overlap, with reward 1000. Otherwise the reward is the distance over 1000, negated, less 5 on a wall hit; it is at most 0, or at most -5 after a wall hit. `truncated` is always false. |
| CatEnv.WallHitClipsNotReverts | cat_brain/rl_model.py:51-63 | From any valid state, a step that hits a wall leaves the cat flush with the edge it crossed. The cat is back at its pre-move position exactly when it already touched that edge, so the move is clipped, not reverted. |
| CatEnv.StepBeforeResetCatches | cat_brain/rl_model.py:26-80 | A step taken before any reset terminates with reward 1000, whatever the action. |
| CatEnv.RunKeepsValid | cat_brain/rl_model.py:37-80 | Any sequence of resets and steps from a valid environment stays valid. Its observation lies in the declared box. |
| CatEnv.ReachableStatesValid | cat_brain/rl_model.py:26-80 | Every environment reachable from the constructed one is valid. |
| CatEnv.StepsNeverMoveFood | cat_brain/rl_model.py:50-80 | A run of steps with no reset never changes the food or the cat's size. |
| CatSim.NewCat | cat_sim.py:18-23 | A new cat is 50×50 and centred on the given point. |
| CatSim.NewFood | cat_sim.py:32-37 | A new food square is 30×30 and centred on the given point. |
| CatSim.StartCat | cat_sim.py:42 | The cat `main` creates has its top-left corner at (375, 275). |
| CatSim.StartFood | cat_sim.py:43 | The food `main` creates has its top-left corner at (85, 85). |
| CatSim.SenseFood | cat_sim.py:24-31 | The sensed offset carries the cat's top-left corner onto the food's. |
| CatSim.Tick | cat_sim.py:57-68 | One frame moves each axis by exactly the sign of that axis's offset, so the move is diagonal when both offsets are nonzero. Each nonzero offset shrinks by exactly 1, a zero offset stays 0, and the cat never passes the food. The size is kept. |
| CatSim.Ticks | cat_sim.py:48-68 | After n frames each axis offset d has become d moved n steps toward 0, stopping at 0. |
| CatSim.OffsetsNeverGrow | cat_sim.py:57-68 | Neither axis offset ever increases from one frame count to a later one. |
| CatSim.CaughtIff | cat_sim.py:57-68 | The cat's corner equals the food's after n frames exactly when n ≥ max(\|dx\|, \|dy\|). |
| CatSim.CaughtIsStable | cat_sim.py:57-68 | Once the corners coincide, a frame leaves the cat where it is. |
| CatSim.StartCatchesAfter290 | cat_sim.py:42-68 | From the start `main` sets up, the corners coincide after n frames exactly when n ≥ 290. |
| CatSim.TicksUntilCaught | cat_sim.py:48-68 | The loop stops with the corners coinciding after exactly max(\|dx\|, \|dy\|) frames. No earlier frame had them coinciding. |

## Left out

- Rendering is left out as drawing through an external library. This covers `pygame.init`, the display, the clock, event handling, and `render` and `close` (`cat_brain/rl_model.py:82-95`, `cat_sim.py:13-16, 49-54, 70-77`).
- CatEnv.StepReward: the Euclidean norm between the centres (`cat_brain/rl_model.py:67`) is floating point, so it is an abstract non-negative input. Its link to the rectangles' centres is not stated, and float rounding of the reward is not modelled.
- The gymnasium base-class `reset(seed=...)` and the numpy generator are left out. The spawn corners are inputs constrained to `randint`'s ranges. Note that the code draws from the global `np.random`, so the `seed` argument does not actually make `reset` reproducible.
- The `info` dictionaries are left out because they are always empty.
- pygame stores rectangle coordinates as C integers. The model's integers are unbounded, and the sizes are non-negative. The environment never leaves the screen range, so no overflow or negative-size case arises.
- The scripted loop in `cat_sim.py` never ends on its own; it runs until the window is closed. `TicksUntilCaught` stops at the first frame where the corners coincide. `CaughtIsStable` covers every frame after that.
- `cat_brain/llm_interface.py`, `run_model.py`, `train_model.py` and `tempCodeRunnerFile.py` are left out. They call a remote language model, or orchestrate training and loading through stable_baselines3, and contain no environment logic.
