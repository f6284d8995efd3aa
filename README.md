# Neuron canvas animation — a Dafny model

The script animates a small "neural network" on a canvas. Neurons drift
slowly and fade over time; they brighten near the mouse. Each neuron grows
axons towards active neurons that lie between 20 and 150 pixels away. An
axon grows one jittered point per frame, steered towards its target and
pulled a little towards the mouse. It either touches the target, which
completes it and boosts the target's activity, or it grows past 350 points
(to 351) and then retracts one point per frame until only its root is left. A click spawns up
to five neurons near the cursor, and start-up seeds fifty, both within a cap
of 150. Every frame drops the neurons whose activity has fallen to 0.01 or
below, then updates the rest.

The model is imperative where the script is:

- `Neurons.Axon` and `Neurons.Neuron` are classes with the script's fields.
  Their methods update those fields in place.
- `Simulation.World` holds the global `neurons` list, with the click
  handler, `init` and the update pass of `animate`.

Each method is proved against a value-level specification:

- `AxonModel.Step` gives one axon update, and `AxonModel.Run` a run of
  updates.
- `Motion.Moved` gives one frame of neuron motion.
- `Activity.FrameActivity` and `Activity.Boost` give the activity changes.
- `Neurons.Picked` gives the connection scan.
- `Sequences.Filter` gives the two `filter` calls.
- `Population.Admitted` gives the capped spawning loops.

The properties the script relies on are proved as lemmas about those
functions:

- path length bounds;
- the axon's phase rules;
- a single boost per axon;
- that growth ends;
- that retraction finishes;
- the activity cap;
- the population cap;
- that both filters keep order.

Coordinates and activity are `real`. Every `Math.hypot(..) < r` test is
written as a squared distance compared with `r * r`; lemma
`Geometry.HypotBelow` shows the two tests agree. Where a length itself is
used (the speed cap, the axon's steering, the mouse influence), the square
root is a parameter `root` that satisfies `Geometry.IsSqrt`. Every
`Math.random()` value is an explicit parameter in [0, 1). These are
`Neurons.Draws` for one neuron update and `Simulation.Seed` for one spawn.
The mouse position and the canvas size are also parameters.

Files:

- `geometry.dfy`: vectors, squares and the square-root oracle.
- `activity.dfy`: the activity arithmetic and the cull threshold.
- `population.dfy`: the cap on spawning.
- `sequences.dfy`: `Filter` and distinctness.
- `motion.dfy`: neuron motion.
- `axon_model.dfy`: the axon state machine as values.
- `neurons.dfy`: the two classes.
- `world.dfy`: the global state and the handlers.

## Model

| member | source | states |
|---|---|---|
| `Geometry.Spread` | script.js:40-41 | `(random - 0.5) * w` lies in [-w/2, w/2] |
| `Geometry.HypotBelow` | script.js:58 | `hypot < r` holds exactly when the squared distance is below `r*r`, so the squared tests are the script's tests |
| `Activity.Boost` | script.js:48-50 | the boosted activity is at most 1, never below an activity that was at most 1, is exactly `a + 0.5` when that is at most 1, and is exactly 1 otherwise |
| `Activity.FrameActivity` | script.js:100-104 | away from the mouse the activity drops by exactly 0.0005; near it the result is `min(1, a - 0.0005 + 0.005)`; an activity at most 1 stays at most 1 and falls by at most 0.0005 |
| `Activity.FrameKeepsPositive` | script.js:100-104 | a neuron that survived the cull (activity above 0.01 and at most 1) still has activity in (0, 1] after its update |
| `Activity.MouseBoostFollowsDecay` | script.js:100-103 | near the mouse the net change is +0.0045: the boost is added after the decay, it does not replace it |
| `Activity.DecayedClosedForm` | script.js:100 | k frames away from the mouse lower the activity by exactly k * 0.0005 |
| `Activity.CulledAfter1980Frames` | script.js:209 | a fresh neuron left alone is still kept after 1979 updates and is culled after its 1980th |
| `Population.Admitted` | script.js:22-29 | of `tries` capped pushes onto n neurons, at most `tries` succeed, the total stays within 150 when it started within it, and either all tries succeed or the cap is reached exactly |
| `Population.AdmittedStep` | script.js:23-28 | one more try adds exactly one neuron while below the cap and none at the cap |
| `Population.AdmittedExamples` | script.js:197-201 | a full world gains nothing from a click, a world of 148 gains 2, and seeding an empty world adds all 50 |
| `Sequences.Filter` | script.js:209 | the kept elements come from the input and pass the test, every passing element is kept, and the result is no longer than the input |
| `Sequences.FilterAppend` | script.js:107 | filtering distributes over concatenation, so the kept elements keep their relative order |
| `Sequences.FilterAll` | script.js:107 | when every element passes, the filter returns its input unchanged |
| `Sequences.FilterPairwise` | script.js:107 | a pairwise property of the input, such as distinct elements or distinct axon targets, holds of what the filter keeps |
| `Motion.SpawnVelocityCapped` | script.js:40-42 | a new neuron's velocity is within the 0.2 speed cap |
| `Motion.Nudged` | script.js:82-85 | without the 1% turn the velocity is unchanged; with it each component moves by at most 0.05 |
| `Motion.Clamped` | script.js:88-92 | after the cap the speed is at most 0.2; a velocity within the cap is kept and a faster one is brought to length exactly 0.2 |
| `Motion.ClampedAlong` | script.js:89-92 | a velocity over the cap keeps its direction: the capped velocity is a positive multiple of it |
| `Motion.Bounced` | script.js:97-98 | the edge test keeps the speed, keeps the velocity of a neuron on the canvas, and turns back a neuron outside that moves further out |
| `Motion.Moved` | script.js:82-98 | after one frame of motion the speed is within the cap and the position has moved by at most 0.2 per axis |
| `Motion.StuckOutsideLeftEdge` | script.js:97 | the edge test looks only at the position: a neuron just outside the left edge and moving back in is turned out again, and without a nudge it rocks outside the canvas for ever |
| `AxonModel.Sprout` | script.js:121-125 | a new axon's path is the one point at the source, with all three flags false, which is a reachable state |
| `AxonModel.Pin` | script.js:129 | point 0 of the path becomes the source position and the rest of the path is kept |
| `AxonModel.Influence` | script.js:150-151 | the mouse influence lies in [0, 1], is 0 exactly at distance 400 or more, and is 1 exactly on the tip |
| `AxonModel.FarMouseIgnored` | script.js:145-154 | a mouse 400 or more away leaves the pull aimed straight at the target |
| `AxonModel.Heading` | script.js:153-160 | the steered step has length exactly 0.5, or is zero exactly when the pull is zero (the `mag > 0` guard) |
| `AxonModel.HeadingAlong` | script.js:156-160 | a non-zero steered step points the way the pull does: it is a positive multiple of the pull |
| `AxonModel.Tip` | script.js:162-168 | the new point lies within 0.9 of the old tip on each axis: 0.5 of steering plus 0.4 of jitter |
| `AxonModel.Step` | script.js:128-180 | one update keeps the path between 1 and 351 points, never sets complete and retracting together, keeps a growing path at most 350 points, re-pins point 0 to the source, and boosts the target exactly on the update that completes the axon |
| `AxonModel.StepByPhase` | script.js:132-179 | flags are never cleared. A retracting axon drops its last point, or at one point becomes fully retracted. A complete axon keeps all but point 0. A growing axon gains exactly one point: it completes exactly when that point is within 10 of the target, and otherwise retracts exactly when the path is now over 350; the new point lies within 0.9 per axis of the old tip, which is the re-pinned source when the path had only its root |
| `AxonModel.Run` | script.js:128-180 | over any run of updates the state stays reachable, complete and retracting are never undone, and the target is boosted at most once, exactly when the axon completes during the run |
| `AxonModel.RetractionFinishes` | script.js:132-139 | a retracting axon loses one point per update down to its root, and is fully retracted once it has had as many updates as points |
| `AxonModel.GrowthEnds` | script.js:141-179 | a growing axon with p points has completed or started retracting after 351 - p updates |
| `AxonModel.CompleteIsFrozen` | script.js:141 | over any run a complete axon keeps every point but its root and never boosts its target again |
| `Neurons.TargetsDistinctPairwise` | script.js:59-61 | "no two axons share a target" is the pairwise property that `FilterPairwise` carries through the filter |
| `Neurons.Axon.constructor` | script.js:118-126 | a new axon joins the given source and target, and its state is `Sprout` at the source's position |
| `Neurons.Axon.Update` | script.js:128-180 | the new path and flags are the `Step` of the old ones at the current source, target and mouse positions, and the target's activity is boosted exactly when that step completes the axon |
| `Neurons.QualifiesByDistance` | script.js:56-58 | the candidate test on squared distance is the script's test: another neuron, activity at least 0.5, `20 < hypot < 150` |
| `Neurons.Picked` | script.js:52-66 | the scan picks only qualifying candidates that are not already targets; it picks every such candidate; it picks none twice |
| `Neurons.PickedStep` | script.js:55-65 | after one more candidate of the scan, the new axons' targets are the picks among the candidates seen so far |
| `Neurons.Extend` | script.js:59-61 | an axon to a neuron that is not yet a target keeps the targets distinct and appends that target |
| `Neurons.Live` | script.js:107 | the kept axons are exactly those not fully retracted, and distinct targets stay distinct |
| `Neurons.Neuron.constructor` | script.js:33-46 | a new neuron has the given position, a radius in [2, 4), a velocity within the cap, activity 1, and fresh growing axons to exactly the candidates `Picked` from the population |
| `Neurons.Neuron.BoostActivity` | script.js:48-50 | the activity becomes `Boost` of the old activity |
| `Neurons.Neuron.Grow` | script.js:61 | one fresh growing axon to `c` is appended and the neuron stays valid |
| `Neurons.Neuron.FindPotentialConnections` | script.js:52-66 | with more than 3 axons nothing changes; otherwise the old axons are kept as a prefix, and the new axons are fresh, growing, and lead to exactly the `Picked` candidates in scan order |
| `Neurons.Neuron.Consider` | script.js:56-63 | one candidate gets a fresh growing axon exactly when it qualifies and is not yet a target; otherwise the axons are unchanged |
| `Neurons.Neuron.Move` | script.js:82-98 | position and velocity become `Moved` of the old ones, so the speed is within the cap |
| `Neurons.Neuron.Fade` | script.js:100-104 | the activity becomes `FrameActivity` of the old one, with the mouse test at the new position |
| `Neurons.Neuron.Drift` | script.js:82-104 | motion then fading, as `Moved` and `FrameActivity` state them |
| `Neurons.Neuron.Update` | script.js:79-114 | motion and activity as above. The live axons are kept in order as a prefix, and each takes exactly one `Step` that boosts its target exactly when it completes. New axons are added only on the connection draw with at most 3 live axons, and then to exactly the `Picked` candidates. Only the targets of the live axons may change activity, by the frame, so the targets of dropped axons and every other neuron keep theirs |
| `Neurons.Neuron.Rewire` | script.js:106-113 | the axon half of `update`: filter, step each live axon, maybe connect; the neuron's own activity is untouched, and by the frame only the live axons' targets may change activity |
| `Neurons.Neuron.Tend` | script.js:107-109 | the axons become the live ones, and each takes its `Step`; by the frame only the live axons' targets may change activity |
| `Neurons.Neuron.UpdateAxons` | script.js:109 | the j-th axon takes one `Step` with the j-th jitter draws and boosts its target exactly when that step completes it; no neuron loses activity |
| `Neurons.Neuron.UpdateEach` | script.js:109 | the loop leaves each axon in its precomputed outcome and each target with its boosted-or-kept activity |
| `Neurons.Neuron.UpdateOne` | script.js:109 | one iteration: the i-th axon reaches its outcome |
| `Neurons.Neuron.MaybeConnect` | script.js:111-113 | below the 1% draw, with at most 3 axons, the new axons lead to exactly the `Picked` candidates; otherwise nothing changes |
| `Simulation.ClickSpot` | script.js:25-26 | a click spawns within 20 of the cursor on each axis |
| `Simulation.SeedSpot` | script.js:199 | `init` spawns on the canvas |
| `Simulation.Survivors` | script.js:209 | the cull keeps exactly the neurons with activity above 0.01, and distinct neurons stay distinct |
| `Simulation.DistinctSnoc` | script.js:24 | pushing a fresh neuron keeps the list free of duplicates |
| `Simulation.World.constructor` | script.js:6 | the world starts empty and valid |
| `Simulation.World.TrySpawn` | script.js:23-28 | at the cap nothing changes; below it one fresh neuron with activity 1 is appended at the given spot, and its axons lead only to neurons already there |
| `Simulation.World.Click` | script.js:21-30 | a click adds exactly `Admitted(n, 5)` fresh neurons after the n there were, the k-th at its `ClickSpot` with activity 1; the world stays valid, so within 150 |
| `Simulation.World.Init` | script.js:196-202 | seeding adds exactly `Admitted(n, 50)` fresh neurons after the n there were, each at its `SeedSpot` with activity 1 |
| `Simulation.World.Frame` | script.js:204-218 | the neurons become the survivors of the cull, in order; the j-th survivor's position and velocity become `Moved` of its old ones under draws(j); every survivor fades by at most 0.0005; and the world stays valid, with activity in (0, 1], no duplicates and at most 150 neurons |
| `Simulation.World.UpdateAll` | script.js:211-214 | the j-th neuron's position and velocity become `Moved` of its old ones under draws(j), each neuron fades by at most 0.0005, and the world stays valid |
| `Simulation.World.UpdateAt` | script.js:212 | the i-th neuron moves as `Moved` says and fades by at most 0.0005; every other neuron keeps its position, velocity and axons and loses no activity |

## Left out

- Drawing. `Neuron.draw`, `Axon.draw`, the canvas clearing in `animate` and the glow and opacity arithmetic (script.js:68-77, 182-193, 205-206, 213, 215) change no simulation state. The `radius` is kept but only ever drawn.
- Browser wiring. The mousemove and resize listeners, the initial canvas size and `requestAnimationFrame` (script.js:3-4, 16-19, 217, 220-227) are left out: the mouse position and the canvas size are parameters of each call, and the model's unit is one frame.
- Floating point. Positions, velocities and activity are exact reals, and the square root is an oracle `root`. Rounding in `Math.hypot`, in the normalisation and in the repeated `0.0005` decay is not modelled, so `Activity.CulledAfter1980Frames` holds for exact arithmetic.
- The random number generator. Each `Math.random()` value is an independent parameter in [0, 1). The script calls the nudge draws only when the turn draw is below 0.01, and takes the jitter draws one axon after another from a single stream. Which stream position feeds which draw is not modelled.
- The connection scan and the mouse boost follow the code, not the usual reading of it. The `return` inside the `forEach` callback (script.js:62) only ends that callback, so one scan adds an axon for every qualifying candidate (`Neurons.Picked`). Near the mouse, the decay and then the boost both apply (`Activity.MouseBoostFollowsDecay`).
- `Axon.source` is always the owning neuron in the script, so `Neurons.Neuron.UpdateAxons` passes the neuron's own position as each step's source. An axon shared between neurons is not modelled.
- Simulation.World.Frame: it states the cull and every neuron's motion exactly. For activity it gives only the 0.0005 fade bound, because a neuron updated later can boost one updated earlier. Each neuron's axon list and axon states are stated by `Neurons.Neuron.Update` for a single update; carrying them through the world loop would need the loop to track which axon objects each neuron owns, and is left out.
- Simulation.World.UpdateAll: the same as `Frame`. It states the motion exactly, and the activity and axons only as above.
- Simulation.World.UpdateAt: for the updated neuron it states the motion and the fade bound; its exact activity and axons are in `Neurons.Neuron.Update`.
- Simulation.World.TrySpawn: it states that the new neuron's axons lead to neurons already in the world, not which ones; `Neurons.Neuron.constructor` states that they are exactly the `Picked` candidates.
