# Aquarium simulation core, modelled in Dafny

This project models the per-tick simulation of a small aquarium toy. A fish
wanders and now and then lunges. Clicking spawns bubbles, which float up.
The fish chases the nearest bubble, and a bubble that touches the fish pops
with a short fading effect. Rendering, audio, shaders and asset loading are
not modelled. The project covers what one call of `Game.Update` does to the
game state, and the one-time set-up in `Game.init`.

Layout, one module per component:

- `entities.dfy` (`Entities`): the value types `FishState`, `Bubble`, `Seaweed`, `PopEffect`, image sizes (`Assets`) and the screen constants.
- `kinematics.dfy` (`Kinematics`): the random-walk step split into its stages: lunge trigger and acceleration, velocity clamp, forward-Euler integration, lunge countdown, facing flip, clamp-and-bounce.
- `effects.dfy` (`Effects`): pop aging, compaction of the pool, and the lifetime of a fresh pop.
- `collision.dfy` (`Collision`): the padded hitbox and the split of the bubble list into caught bubbles and survivors.
- `spawner.dfy` (`Spawner`): a new bubble, the upward float, seaweed placement, and the spawn cooldown gate.
- `planner.dfy` (`Planner`): the nearest-bubble search (earliest index wins a tie), the off-screen fallback, the predicted aim point and the chase integration.
- `simulation.dfy` (`Simulation`): one whole tick as a function `Step` on a `World` value, the invariant every tick keeps, and facts about runs of ticks.
- `aquarium.dfy` (`Aquarium`): the program's objects. The classes `Fish` and `Game` update their fields in place, step by step, as the program does. Each method's postcondition ties the new state to the functions above. `Game.Update` ends in the state `Step(old state)`.

External values are parameters. These are the `rand` draws (with their ranges as preconditions), the mouse button and cursor, and the pixel sizes of the fish, seabed and seaweed images. Coordinates are real numbers.

Three details of the code that the model keeps as written:
- The seaweed count is 20 to 30 (`rand.Intn(11) + 20`).
- Velocity is clamped before acceleration is added.
- The predicted aim point moves x by `vy * 8` as well as y (`main.go:422`).

## Model

| member | source | states |
|---|---|---|
| Kinematics.ChooseAcceleration | main.go:309-316 | A lunge starts only when the countdown is at or below zero and the roll is below 0.02. It sets the countdown to 1..4 and an acceleration in the lunge ranges. Otherwise the countdown is untouched and the acceleration is in the wander ranges. Nothing else changes. |
| Kinematics.Clamp | main.go:318-327 | The result lies in [-2, 2]. A value already in range is returned unchanged. A value out of range goes to the nearer bound. |
| Kinematics.ClampVelocity | main.go:318-327 | Each of vx and vy becomes `Clamp` of its old value: in-range components are unchanged, and out-of-range ones go to the nearer bound, so both lie in [-maxVelocity, maxVelocity]. All other fields are unchanged. |
| Kinematics.Face | main.go:342-347 | vx > 0.1 leaves the fish unflipped, vx < -0.1 leaves it flipped, and anything in between keeps the facing. No other field changes. |
| Kinematics.Integrate | main.go:329-335 | Velocity grows by the acceleration, then position grows by the new velocity. No other field changes. |
| Kinematics.CountDownLunge | main.go:337-340 | A positive countdown drops by exactly one. A countdown at or below zero leaves the fish unchanged. A non-negative countdown stays non-negative. No other field changes. |
| Kinematics.Bounce | main.go:349-363 | Afterwards x is in [0, 310]. y is in [0, 224 - seabedHeight] whenever the seabed fits on screen. An in-range coordinate is unchanged. An x below 0 becomes 0 and one beyond 310 becomes 310. A y below 0 becomes 0, and a y beyond the seabed top becomes 224 - seabedHeight. A coordinate changes exactly when it was clamped, and then its velocity becomes -0.7 times the old one. Otherwise velocity is unchanged, as are all other fields. |
| Kinematics.Walk | main.go:304-365 | After the walk the position is inside the walls. The speeds are at most 2.0056 (x) and 2.0045 (y). A started lunge leaves the drawn duration (0..3). Otherwise a positive countdown drops by exactly one and a non-positive one is kept. A non-negative countdown never goes negative. |
| Collision.Hitbox | main.go:93-102 | The hitbox runs from x-10 to x+2w+10 and from y-10 to y+2h+10, where w and h are the fish image's width and height. |
| Collision.SpriteInsideHitbox | main.go:93-102 | Every point of the unflipped fish sprite, drawn at double size over [x, x+2w] by [y, y+2h], lies strictly inside the hitbox. |
| Collision.FlippedSpriteOverhang | main.go:243-248 | The flipped sprite is drawn over [x-w, x+w] while the hitbox stays put. For an image wider than 10 pixels its left edge at x-w lies outside the hitbox, while its right edge at x+w lies inside. |
| Collision.Survivors | main.go:371-392 | A bubble is kept exactly when it is in the input and not strictly inside the hitbox. |
| Collision.Caught | main.go:373-388 | A bubble is removed exactly when it is in the input and strictly inside the hitbox. |
| Collision.PopsFor | main.go:378-385 | One pop per caught bubble, in order, each at that bubble's position, with scale 1.0, 14 frames, alpha 1.0 and active set. |
| Collision.CollideOneMore | main.go:373-390 | One more bubble either joins the caught list and adds one fresh pop at its position, or joins the survivors. |
| Collision.CollisionSplit | main.go:367-393 | The survivors and the caught bubbles together are exactly the input bubbles, as a multiset and in number. |
| Collision.SurvivorsConcat | main.go:371-392 | Filtering survivors distributes over concatenation, so survivors keep their original order. |
| Collision.CaughtConcat | main.go:373-388 | Caught bubbles, and therefore their pops, keep their original order. |
| Collision.CollisionOutcome | main.go:374-392 | A bubble strictly inside the hitbox is removed and a pop appears at its position. A bubble outside is kept and makes no pop. |
| Effects.FreshPop | main.go:379-386 | A new pop sits at the given point with scale 1.0, 14 frames, and is live (active, opaque). |
| Effects.AgePop | main.go:198-206 | An inactive pop is untouched. An active pop loses one frame and 0.06 alpha. It stays active exactly when both are still positive. Position and scale do not change. |
| Effects.AgeAll | main.go:198-206 | The pool keeps its length. Each inactive pop is unchanged. Each active pop loses one frame and 0.06 alpha, and stays active exactly when both are still positive. Position and scale never change. |
| Effects.ActivePops | main.go:208-215 | A pop is in the compacted pool exactly when it was in the pool and active. No pop appears more often than it did in the pool. With `ActivePopsConcat` this makes the result exactly the active pops, each as often as before, in their original order. |
| Effects.ActivePopsConcat | main.go:208-215 | Compaction distributes over concatenation, so it keeps the original order. |
| Effects.AgeKeepsLive | main.go:198-206 | A live pop survives an aging pass exactly when it had two or more frames left. A survivor is live again, with fewer than 14 frames. |
| Effects.FreshPopTimeline | main.go:198-206 | After n < 14 passes, a fresh pop is active with 14 - n frames and alpha 1 - 0.06n. |
| Effects.FreshPopLifetime | main.go:198-215 | A fresh pop stays active through 13 passes. The 14th pass turns it off with frames 0 and alpha 0.16, and compaction then removes it. |
| Spawner.NewBubble | main.go:450-459 | The new bubble is at (x, y), has vy = -0.2, and has a scale in [0.5, 1.0). |
| Spawner.Float | main.go:227-229 | The list keeps its length. Each bubble keeps its x, vy and scale, and its y moves by its own vy. |
| Spawner.FloatRises | main.go:227-229 | The float keeps every bubble's x, vy and scale, moves its y up by 0.2, and keeps every bubble well formed. |
| Spawner.WeedAt | main.go:442-445 | A weed's x is in [0, screenWidth). Its y is screenHeight minus the seaweed image height. |
| Spawner.Weeds | main.go:439-448 | One weed per draw u, in order, at x = u * screenWidth, which lies in [0, screenWidth), and at y = screenHeight minus the seaweed image height. |
| Spawner.WeedsPlacement | main.go:439-448 | 20 to 30 weeds are placed, each with x in [0, screenWidth) and the fixed y. |
| Spawner.CooldownTick | main.go:217-225 | The counter drops only while positive. A spawn happens exactly when the pointer is pressed and the counter was at most 1, so at most 0 after the decrement. A spawn rearms the counter to 40. The counter stays in [0, 40]. |
| Spawner.NoSpawnWhileCooling | main.go:217-225 | While the counter exceeds the number of ticks run, it falls by one per tick and nothing spawns. |
| Planner.SqDistance | main.go:435-437 | The squared distance is non-negative and zero between equal points. |
| Planner.Scan | main.go:403-413 | Scanning with a strict less-than keeps the lowest-index closest bubble. |
| Planner.NearestIndex | main.go:403-413 | The chosen index is the lowest i with dist(i) <= dist(j) for every j. |
| Planner.NearestUnique | main.go:403-413 | There is only one such index. |
| Planner.NearestExamples | main.go:403-413 | At distances 5, 3 and 9 the bubble at distance 3 is chosen. Of two equally distant bubbles, the first is chosen. |
| Planner.PredictedX | main.go:421-422 | The aim point's x is the bubble's x moved by 8 times its vertical velocity, so a rising bubble is aimed to its left. |
| Planner.PredictedY | main.go:421-423 | The aim point's y is the bubble's y moved by 8 times its vertical velocity, so a rising bubble is aimed above it. |
| Planner.Chase | main.go:395-433 | With no bubbles, or with the nearest one off screen, only a wander acceleration is set and position and velocity stay. Otherwise the fish accelerates at 0.0001 times the offset to the predicted point and takes one more Euler step. Facing and countdown do not change. |
| Planner.SteeringPointsAtTarget | main.go:421-426 | On each axis, the chase acceleration points from the fish toward the predicted point. |
| Simulation.Step | main.go:194-234 | A tick never changes the seaweed or the camera. A tick that spawns leaves the cooldown at 40. |
| Simulation.InitialWorld | main.go:167-181 | The starting state satisfies the between-ticks invariant. |
| Simulation.AgedPopsLive | main.go:198-215 | Aging and compacting a pool of live pops leaves only live pops. |
| Simulation.StepPreservesInvariant | main.go:194-234 | Every tick keeps the invariant. The lunge countdown stays in 0..3 and the cooldown in 0..40. Every bubble has vy = -0.2 and a scale in [0.5, 1). Every pooled pop is active, with alpha matching its remaining frames. |
| Simulation.RunCooldown | main.go:217-225 | Over any run of ticks, the cooldown counter depends on the pointer states alone. |
| Simulation.NoSpawnWhileArmed | main.go:217-225 | From a counter just rearmed to 40, the next 39 ticks spawn nothing, whatever the pointer does. |
| Simulation.NoSpawnAfterSpawn | main.go:217-225 | After a spawn at tick T there is no spawn at ticks T+1 through T+39, whatever the pointer does. |
| Simulation.LungeRunsOut | main.go:304-340 | With c ticks of lunge left, the next c ticks start no lunge and count down by exactly one each. |
| Aquarium.Fish.constructor | main.go:172-178 | The fish starts at rest at the given point, with every other field zero. |
| Aquarium.Fish.ChooseAcceleration | main.go:309-316 | Updates the fields in place to `Kinematics.ChooseAcceleration` of the old state. |
| Aquarium.Fish.ClampVelocity | main.go:318-327 | Updates the fields in place to `Kinematics.ClampVelocity` of the old state. |
| Aquarium.Fish.Integrate | main.go:329-335 | Forward Euler in place: velocity += acceleration, then position += velocity. |
| Aquarium.Fish.CountDownLunge | main.go:337-340 | The countdown drops by one in place while positive. |
| Aquarium.Fish.Face | main.go:342-347 | Updates the facing in place to `Kinematics.Face` of the old state. |
| Aquarium.Fish.Bounce | main.go:349-363 | Updates the fields in place to `Kinematics.Bounce` of the old state. |
| Aquarium.Game.constructor | main.go:167-181 | A new game is `InitialWorld` with the placed seaweed: the fish at rest at (170, 112), camera (-240, 0), no bubbles or pops, cooldown 0. It satisfies the invariant. |
| Aquarium.Game.SpawnWeeds | main.go:439-448 | Appends one weed per draw to the existing weeds and changes nothing else. |
| Aquarium.Game.RandomWalk | main.go:304-365 | The fish's new state is `Walk` of its old state. |
| Aquarium.Game.CheckCollisions | main.go:367-393 | The bubbles become the survivors. One fresh pop per caught bubble is appended to the pool, and the pop sound plays once per caught bubble. Nothing else changes. |
| Aquarium.Game.AgePops | main.go:198-206 | The pool becomes every pop aged once, in place, and nothing else changes. |
| Aquarium.Game.CompactPops | main.go:208-215 | The pool becomes its active pops in order, and nothing else changes. |
| Aquarium.Game.SpawnBubbleAt | main.go:450-459 | Appends exactly one `NewBubble` and leaves the existing bubbles and everything else untouched. |
| Aquarium.Game.FloatBubbles | main.go:227-229 | Every bubble's y grows by its vy, and nothing else changes. |
| Aquarium.Game.GiveChase | main.go:395-433 | The in-place nearest search finds `NearestIndex`, and the fish's new state is `Chase` of its old state. |
| Aquarium.Game.Update | main.go:194-234 | The new game state is `Step` of the old one. A tick started from a state satisfying the invariant ends in one. The pop sound plays once per bubble caught by the hitbox of the walked fish. |

## Left out

- Rendering: `Game.Draw`, `Layout`, the CRT wrapper and its shader, and `NewGame`'s choice of wrapper. Engine calls only.
- Font, shader, audio-context and image loading in the two package `init` functions, plus `loadSound` and `main`. File I/O and library calls only.
- Audio playback: `popSound.Rewind/Play` is modelled as the ghost counter `Game.popSounds`.
- Mouse polling: the button state and cursor position are fields of the tick input.
- Random draws: these are parameters. The model does not capture which draws the real stream consumes, or in what order. For example, the lunge roll is drawn only when no lunge is running, and the chase draws only on the fallback path.
- Planner.SqDistance: the model compares squared distances instead of `math.Sqrt` of them. Over the reals the square root is strictly increasing, so the chosen bubble is the same.
- IEEE float64 rounding: every coordinate, velocity and alpha is an exact real. With exact arithmetic a fresh pop's alpha is exactly 0.16 when it expires.
- Integer width: frame, lunge and cooldown counters stay far inside machine range, so no wrap-around is modelled.
- `g.fishes` always holds the single fish made by `init`, and only element 0 is used. It is modelled as the one field `Game.fish`.
- The hitbox does not follow the flipped drawing: a flipped fish is drawn over [x-w, x+w], but collisions always use the unflipped extent, as in the program (see `Collision.FlippedSpriteOverhang`).
- Pointer identity of bubbles and pops: each is owned by exactly one slice and never shared, so the slices are sequences of values that are reassigned.
- Aquarium.Game.CheckCollisions: the new pops are gathered in the loop and appended to the pool together at the end, where the program appends them one by one. The final pool is the same.
- Aquarium.Game.constructor: starts from the zero values of `&Game{}` in `NewGame` (cooldown 0, no pops), then does what `Game.init` does.
- Fish fields `bored` and `flipCount` are carried along but never read or written, as in the program.
- No bound on position or velocity over a whole `Update` is claimed. The chase integrates again after the walls are checked, with no clamp or bounce.
