# Falling hearts: a verified model of the particle scene

`ritu/js/stars.js` draws falling pink hearts, white background hearts and
white roses on a canvas. Under the drawing sits a small discrete simulation:

- falling hearts fall under gravity;
- they bounce with friction off a ground line and off the two side walls;
- every contact shatters the heart, which shrinks it by 3 and pushes 8
  mini-hearts;
- mini-hearts bounce off the ground, age by one tick per update and fade;
- the render loop prunes dead particles with `splice` inside `forEach`;
- a wrapping counter spawns a new heart whenever it is a multiple of a
  randomly redrawn interval.

This project models that simulation in Dafny and proves what it does.

- `particles.dfy` (module `Particles`):
  - the three entities (`Heart`, `MiniHeart`, `Rose`) as datatypes;
  - their constructors;
  - the update rule of a falling heart, including where and how often it
    shatters and the mini-hearts it pushes;
  - the update rule of a mini-heart;
  - lemmas about those rules.
- `sweep.dfy` (module `Sweep`): the update-and-prune pass `list.forEach((p, i)
  => { p.update(); if (dead(p)) list.splice(i, 1) })`, generic over the
  element type.
  - `Pass` defines the pass read from the front of the list.
  - `FateAt` is an independent, position-by-position reference: updated,
    removed, or skipped because the predecessor was spliced out.
  - `Emit` collects what the visited elements emit.
  - The loop-invariant lemmas let an in-place `while` loop be proved equal to
    `Pass` and `Emit`.
- `scene.dfy` (module `Stars`): the script's globals as one `Scene` class,
  with these methods:
  - `Init`, with two `while` loops;
  - `Resize`;
  - the per-heart `UpdateHeart` and `Shatter`, whose `for` loop pushes 8
    mini-hearts;
  - `UpdateMiniHeart`;
  - the two in-place pruning loops `UpdateHearts` and `UpdateMiniHearts`;
  - the ticker and spawn steps, and `Tick`, the non-drawing half of `animate`.

  The scene invariant `Valid` holds throughout. It says:
  - the counter is in [0, 1e9);
  - the interval is 75 or in [125, 200];
  - the background is 200 hearts and 50 roses inside the canvas;
  - every falling heart has size 12 − 3k with k ≥ 0, and never exactly 0;
  - every mini-heart has 1 ≤ ttl ≤ 100 and opacity equal to `Fade(ttl)`
    (closed form: `FadeClosedForm`).

Every `Math.random()` result is a real in [0, 1), taken in the order the script
draws it from a `draws` parameter.
- `new MiniHeart` takes 3 draws: `Heart.call` draws a velocity that is then
  overwritten, then vx, then vy.
- A shatter takes 24 draws.
- `init` takes 1000 draws: 4 for each of the 200 background hearts and 50 roses.
- A spawn takes 3 draws: x, the new heart's vx, and the new interval.

## Behaviour worth knowing

- **Free fall** (stars.js:50, 60): after n contact-free updates a falling heart
  has y = y₀ + n·vy₀ + n(n+1)/2 (gravity 1). Hearts start with vy₀ = 3
  (`FreeFall`).
- **Opacity** (stars.js:103, 132-133): a mini-heart's opacity stays within
  [0.505, 1] for its whole life. At ttl t it is 1 − 0.0001·(100 − t)(99 + t)/2
  (`FadeClosedForm`, `FadeBounds`).
- **Shatters per update** (stars.js:46-57): a ground contact and a side contact
  in the same update shatter twice. The size then drops by 6 and 16 mini-hearts
  are pushed (`DoubleShatter`).
- **Removal of a heart** (stars.js:187): a heart is removed only when its size
  is exactly 0. A heart of size 3 that hits the ground and a wall in one update
  reaches −3 and stays in the list for good (`SizeThreeDoubleShatter`,
  `NegativeStaysNegative`).
- **Skipped elements** (stars.js:185-197): the element right after a
  spliced-out one is not updated in that frame. So a mini-heart's ttl does not
  drop on every frame (`SkipsSuccessor`, `FateRules`).
- **Clamped spawns** (stars.js:54, 205): a heart spawned at the clamp x = 12
  has x − size = 0. Its first update meets the left-wall test, so it shatters
  once at y = −100, above the canvas (`ClampedSpawnShatters`).
- **Velocity ranges** (stars.js:20, 98-99): a falling heart starts with vx in
  [−2, 2) and a mini-heart with vx and vy in [−3, 3). The ranges are half-open
  because `Math.random()` is in [0, 1).

## Model

| member | source | states |
|---|---|---|
| Particles.NewHeart | ritu/js/stars.js:14-25 | position, size and color as passed; vx in [−2, 2); vy = 3, friction 0.8, gravity 1 |
| Particles.NewMiniHeart | ritu/js/stars.js:95-105 | position and size as passed; vx and vy in [−3, 3); friction 0.8, gravity 0.1, ttl 100, opacity 1 |
| Particles.NewRose | ritu/js/stars.js:71-76 | position and size as passed; opacity in [0.4, 1.0) |
| Particles.AfterGround | ritu/js/stars.js:45-51 | definition of the ground branch; only vy and size change, size by 0 or 3; pinned by `GroundRule` and `SideRule` |
| Particles.AfterSide | ritu/js/stars.js:53-57 | definition of the side branch; only vx and size change, size by 0 or 3; pinned by `SideRule` |
| Particles.Moved | ritu/js/stars.js:59-60 | definition of the final move; only the position changes, each coordinate by the velocity the heart carries; pinned by `HeartIntegrates` |
| Particles.HeartStep | ritu/js/stars.js:42-61 | definition of one `Heart.prototype.update`; color, friction and gravity unchanged; pinned by `GroundRule`, `SideRule`, `HeartIntegrates`, `ShatterAccounting`, `FreeFall` and `HeartStepKeepsLive` |
| Particles.Shatters | ritu/js/stars.js:42-61 | one update shatters at most twice, and zero times exactly when neither the ground test nor the side test (on the heart the ground branch left) fires |
| Particles.Burst | ritu/js/stars.js:63-68 | one shatter pushes exactly 8 mini-hearts, each fresh at (x, y): size 2, velocity in [−3, 3)², ttl 100, opacity 1 |
| Particles.ShatterSpots | ritu/js/stars.js:42-61 | one shatter spot per shatter of the update, each at the heart's position before it moves |
| Particles.Bursts | ritu/js/stars.js:63-68 | shatters at a list of spots push 8 mini-hearts per spot |
| Particles.BurstsAppend | ritu/js/stars.js:63-68 | shatters at a + b push a's mini-hearts, then b's drawn from the draws after a's |
| Particles.BurstsFresh | ritu/js/stars.js:63-68 | every mini-heart pushed at a spot is fresh at that spot |
| Particles.BurstsAt | ritu/js/stars.js:63-68 | mini-heart i of the bursts at a list of spots is fresh at spot i / 8: each spot's eight come together, in spot order |
| Particles.BurstsLive | ritu/js/stars.js:95-105 | every pushed mini-heart starts within its lifetime with ttl 100 |
| Particles.HeartFragments | ritu/js/stars.js:42-68 | the mini-hearts one heart update pushes: 8 per shatter, all fresh at the heart's pre-move position |
| Particles.GroundRule | ritu/js/stars.js:45-51 | on ground contact vy' = −0.8·vy and at least one shatter; otherwise vy' = vy + 1 and at most one shatter (the side one) |
| Particles.SideRule | ritu/js/stars.js:53-57 | the side test sees the heart after the ground branch (same x and vx, size already reduced by 3 if it hit the ground); vx' = −0.8·vx exactly on side contact |
| Particles.HeartIntegrates | ritu/js/stars.js:59-60 | position integrates the new velocity: x' = x + vx', y' = y + vy' |
| Particles.ShatterAccounting | ritu/js/stars.js:42-68 | size drops by exactly 3 per shatter and exactly 8 mini-hearts appear per shatter |
| Particles.DoubleShatter | ritu/js/stars.js:46-57 | when both branches fire, size drops by 6 and 16 mini-hearts appear |
| Particles.HeartStepKeepsLive | ritu/js/stars.js:42-68 | a surviving heart stays on the size ladder 12 − 3k with its constants 0.8 and 1 |
| Particles.MiniStep | ritu/js/stars.js:121-134 | definition of one `MiniHeart.prototype.update`; ttl drops by 1, vx, size and the constants unchanged; pinned by `MiniRules` and `MiniStepKeepsLive` |
| Particles.MiniRules | ritu/js/stars.js:121-134 | ttl' = ttl − 1; opacity' = opacity − 0.0001·ttl'; vx unchanged; vy bounces only on the ground line; position integrates; size and constants unchanged |
| Particles.MiniStepKeepsLive | ritu/js/stars.js:121-134 | a surviving mini-heart keeps 1 ≤ ttl ≤ 100 and opacity equal to the fade of its ttl |
| Particles.FadeClosedForm | ritu/js/stars.js:132-133 | the opacity at ttl t is 1 − 0.0001·(100 − t)(99 + t)/2 |
| Particles.FadeBounds | ritu/js/stars.js:121-134 | the opacity stays within [0.505, 1] for the whole life of a mini-heart |
| Particles.FadeUpper | ritu/js/stars.js:132-133 | the opacity never exceeds its initial value 1 |
| Particles.FreeFall | ritu/js/stars.js:42-61 | after n contact-free updates: vy = vy₀ + n·g, y = y₀ + n·vy₀ + g·n(n+1)/2, x = x₀ + n·vx, with vx, size and g unchanged |
| Particles.QuietStep | ritu/js/stars.js:49-60 | a contact-free update is gravity then integration, nothing else |
| Particles.OneMoreQuietStep | ritu/js/stars.js:49-60 | the closed form after k quiet updates extends to k + 1 |
| Particles.NegativeStaysNegative | ritu/js/stars.js:185-190 | a heart whose size went negative stays negative under any number of updates, so the exact `size == 0` test never removes it |
| Particles.SizeThreeDoubleShatter | ritu/js/stars.js:42-68 | a size-3 heart at the ground and the right wall shatters twice in one update and ends at size −3, not removed |
| Sweep.Pass | ritu/js/stars.js:185-197 | a pass never lengthens the list |
| Sweep.PassFollowsFates | ritu/js/stars.js:185-197 | the pass leaves exactly the outcomes of the positional fates, in the original order: updated elements updated, skipped ones unchanged, removed ones gone |
| Sweep.FateRules | ritu/js/stars.js:185-197 | an element is skipped exactly when its predecessor was removed; it is removed exactly when it was visited and its update made it dead |
| Sweep.NoAdjacentRemovals | ritu/js/stars.js:185-197 | the successor of a removed element is skipped, never removed |
| Sweep.SkipsSuccessor | ritu/js/stars.js:185-197 | right after a removed element, the next element stays as it was, even if its own update would kill it |
| Sweep.PassWithoutRemovals | ritu/js/stars.js:185-197 | with no removals the pass is the plain map of the update, same length |
| Sweep.PassKeeps | ritu/js/stars.js:185-197 | an invariant held by every element and kept by the update on survivors holds after the pass |
| Sweep.Visit | ritu/js/stars.js:185-190 | one callback keeps the length or removes exactly one element |
| Sweep.PassLoopStep | ritu/js/stars.js:185-190 | one forEach callback (update in place, splice when dead) keeps "done prefix + pass over the rest = pass over the original" |
| Sweep.RemovedStep | ritu/js/stars.js:186-188 | a splice at k moves the successor into slot k, which forEach has already visited |
| Sweep.PassLoopDone | ritu/js/stars.js:185-190 | when the loop index passes the end, the list equals the pass |
| Sweep.Emit | ritu/js/stars.js:185-190 | definition of what the visited elements emit, in order; the first element is always visited, so its emission comes first; pinned by `EmitFollowsFates` |
| Sweep.EmitFollowsFates | ritu/js/stars.js:185-190 | the emissions of a pass are those of the elements not skipped, in list order |
| Sweep.EmitLoopStep | ritu/js/stars.js:185-190 | one callback emits for its element and keeps "emitted so far + rest = whole emission" |
| Sweep.EmitLoopDone | ritu/js/stars.js:185-190 | when the loop stops, what was emitted is the whole emission of the pass |
| Stars.NextTicker | ritu/js/stars.js:199-202 | the counter stays in [0, 1e9) and becomes (t + 1) mod 1e9 |
| Stars.TickerCounts | ritu/js/stars.js:145-202 | after n frames the counter is n mod 1e9 |
| Stars.NextSpawnRate | ritu/js/stars.js:207 | the new interval is an integer in [125, 200] |
| Stars.SpawnX | ritu/js/stars.js:205 | the spawn x is at least 12, and either exactly 12 or less than width − 12 |
| Stars.ClampedSpawnShatters | ritu/js/stars.js:54-57 | a spawn clamped to x = 12 shatters exactly once on its first update, at (12, −100), and drops to size 9 |
| Stars.SpawnedHeart | ritu/js/stars.js:203-206 | the spawned heart has y = −100, size 12, x ≥ 12, the light pink color, and is on the size ladder |
| Stars.BackgroundHeartAt | ritu/js/stars.js:156-161 | each background heart lies inside the canvas, with size in [0, 5) and color white |
| Stars.RoseAt | ritu/js/stars.js:164-169 | each rose lies inside the canvas, with size in [5, 15) and opacity in [0.4, 1.0) |
| Stars.FrameSpots | ritu/js/stars.js:185-190 | definition of where the hearts pass shatters (`Emit` of each visited heart's spots); there are at least as many as the first heart's, since it is always visited; pinned by `FrameSpotsBound` and `FrameFragments` |
| Stars.FrameSpotsBound | ritu/js/stars.js:185-190 | one hearts pass shatters at most twice per heart |
| Stars.FrameFragments | ritu/js/stars.js:185-190 | the mini-hearts one hearts pass pushes: 8 per shatter spot of the pass, mini-heart i fresh at spot i / 8; at most 16 per heart; all start live |
| Stars.HeartsLoopStep | ritu/js/stars.js:185-190 | one callback over heart k keeps the hearts loop invariant: the list invariant, the spots so far, and the mini-hearts pushed so far from the draws used so far |
| Stars.HeartsLoopDone | ritu/js/stars.js:185-190 | when the hearts loop stops: hearts = the pass, mini-hearts = old ones + the frame's bursts, draws used within 48 per heart |
| Stars.BurstsStep | ritu/js/stars.js:185-190 | the bursts so far followed by the next heart's bursts are the bursts of all spots so far |
| Stars.FrameKeepsLive | ritu/js/stars.js:185-197 | one frame keeps every heart on the size ladder and every mini-heart, old or just pushed, within its lifetime |
| Stars.SpawnKeepsLive | ritu/js/stars.js:203-206 | appending a live heart keeps every heart live |
| Stars.Scene.constructor | ritu/js/stars.js:141-170 | canvas size as given, ground height 9% of it, counter 0, interval 75, no hearts, background exactly as `init` draws it, invariant established |
| Stars.Scene.Init | ritu/js/stars.js:150-170 | no falling hearts or mini-hearts; background hearts and roses exactly as drawn from the draws, 200 and 50 of them, inside the canvas |
| Stars.Scene.Resize | ritu/js/stars.js:7-11 | new canvas size, lists rebuilt by `init`, counter and interval unchanged, invariant kept |
| Stars.Scene.Shatter | ritu/js/stars.js:63-68 | size lowered by exactly 3; mini-hearts = old mini-hearts + the 8 fresh ones at (x, y) |
| Stars.Scene.UpdateHeart | ritu/js/stars.js:42-61 | only heart k changes, to its one-update successor; mini-hearts = old + `HeartFragments` of that heart: 8 fresh ones at its position per shatter |
| Stars.Scene.UpdateMiniHeart | ritu/js/stars.js:121-134 | only mini-heart k changes, to its one-update successor |
| Stars.Scene.VisitHeart | ritu/js/stars.js:185-190 | one hearts callback: update heart k, splice it out iff its size is now exactly 0 |
| Stars.Scene.UpdateHearts | ritu/js/stars.js:185-190 | hearts = the pass over the old hearts; mini-hearts = old + the bursts of the pass; returns the draws used, at most 48 per heart |
| Stars.Scene.VisitMiniHeart | ritu/js/stars.js:192-197 | one mini-hearts callback: update mini-heart k, splice it out iff its ttl is now exactly 0 |
| Stars.Scene.UpdateMiniHearts | ritu/js/stars.js:192-197 | mini-hearts = the pass over the old mini-hearts |
| Stars.Scene.AdvanceTicker | ritu/js/stars.js:199-202 | counter = its wrapped successor |
| Stars.Scene.Spawn | ritu/js/stars.js:203-208 | exactly one heart appended (the spawned heart), interval redrawn |
| Stars.Scene.Schedule | ritu/js/stars.js:199-208 | counter advanced; one heart appended and interval redrawn iff the new counter is a multiple of the old interval; counters and liveness kept |
| Stars.Scene.UpdateParticles | ritu/js/stars.js:185-197 | the hearts pass, then the mini-hearts pass over old mini-hearts + the frame's bursts; every particle stays live |
| Stars.Scene.Tick | ritu/js/stars.js:172-211 | the whole new state of one frame: both passes, the wrapped counter, the conditional spawn from the draws after the shatters' draws; the invariant is kept |
| Stars.FirstFrame | ritu/js/stars.js:199-208 | an 800 × 600 scene after one frame has no hearts and no mini-hearts, and has 200 background hearts and 50 roses |
| Stars.FirstSpawn | ritu/js/stars.js:146-208 | frames 1–74 spawn nothing; frame 75 spawns exactly one heart, at y = −100 with size 12 and x ≥ 12, and the interval becomes one in [125, 200] |

## Left out

- Drawing is not modelled: the `draw` methods, the Bézier outlines, shadows and
  fills, the background gradient, and `clearRect`/`fillRect`. They change no
  simulation state.
- The per-frame random jitter of `Rose.prototype.draw` is not modelled. It
  consumes 10 `Math.random()` results per rose each frame, before the hearts
  pass. No state depends on them, so `Tick`'s draws begin at the hearts pass.
- DOM and host wiring is not modelled: `document.querySelector`, `getContext`,
  the resize event registration and `requestAnimationFrame`. The resize
  handler's body is `Scene.Resize`, one frame of `animate` is `Scene.Tick`, and
  the script's start (`init(); animate()`) is the constructor followed by a
  call to `Tick`.
- `Math.random()` is not modelled. Every result is a parameter in [0, 1).
  - `Tick` asks for 48 draws per falling heart plus 3. The script has an unlimited
    supply of random numbers, and a frame uses at most that many.
  - `Init` asks for exactly the 1000 it uses.
- IEEE-754 arithmetic is not modelled; positions, velocities and opacities are
  exact reals. Sizes, ttl and the counter are small integers, exact in doubles
  as well. So the `size == 0` and `ttl == 0` tests and the results stated about
  them also hold for the script. The friction products and the opacity decay
  are exact only in the model. So are the [125, 200] bound of `NextSpawnRate`
  and the interval bound in `Counted`: in doubles, the largest `Math.random()`
  result makes `r * 76 + 125` round up to 201, which `Math.floor` keeps.
- Particles are values in sequence fields, not shared objects. The script never
  holds a particle in two lists or keeps a reference to one across frames, so
  no aliasing is lost.
- Of the background hearts, `Valid` constrains only position and size. They
  are never updated, so their velocities are left free.
- The color argument of `new MiniHeart` is never passed and never read. It is
  not a field.
- `groundHeight` is a constant fixed at construction from the initial height.
  `Resize` does not recompute it, as in the script.
