# Black hole simulator: the discrete control layer

A Dafny model of the part of the Bevy-based black hole simulator
(`src/main.rs`) that is discrete rather than floating-point physics:

- the `SimulationState` resource (pause flag, selected black hole, particle
  size) and what the keyboard does to it in `handle_input`: Space toggles
  pause, N spawns a black hole, Tab cycles the selection, Delete despawns the
  selected black hole and re-reduces the selection, `+`/`-` resize particles
  with a floor of 0.1;
- `update_black_holes`: the selected black hole follows the cursor while the
  left button is held, gains 1 mass per frame on ArrowUp, loses 10 per frame
  on ArrowDown (floored at 1), and has its event horizon re-derived from its
  mass;
- `merge_black_holes`: the scan of every pair `i < j`, the schedule of the
  pairs closer than 30, and the despawn/spawn commands with the replacement
  black hole at the midpoint carrying the summed mass;
- the early return of `update_particles` while paused.

Modules: `Bodies` (positions, black holes, the floored decrement, the
event-horizon law), `Control` (the resource as a class, `handle_input`,
`update_black_holes`), `Merge`, `Particles`, and `Reselection` (the selection
across a merge, see "Findings").

Modelling choices:

- `real` stands in for `f32`; there is no rounding, NaN or infinity.
- Black holes are the sequence the black-hole query yields, in query order;
  `selected` is an index into it, as `selected_black_hole` is in the source.
- The square root has no definition here, so the event-horizon formula
  `sqrt(mass / 1000) * 15` is a parameter `eh: real -> real` of every
  operation that derives a horizon. `Bodies.IsHorizonLaw(eh)` says that `eh`
  is that formula (nonnegative, with square `mass / 1000 * 225`); the lemmas
  that need its values assume it.
- Bevy commands are deferred. Within `handle_input`, Tab counts and Delete
  indexes the black holes as they were when the system started, and the black
  hole N spawns is placed after the survivors. `merge_black_holes` is
  modelled by the commands it issues (indices to despawn, records to spawn),
  not by their application.
- Indexing `black_hole_entities[selected]` panics in the source when the
  selection is out of range, so `Control.SimulationState.HandleInput`
  requires that, when Delete fires, the selection after Tab is in range.
  Input handling itself keeps a valid selection valid (its last `ensures`),
  but nothing in the source re-clamps the selection after
  `merge_black_holes` shrinks the set of black holes:
  `Reselection.MergeLeavesSelectionOutOfRange` shows three black holes, two
  of them merging, with the third selected, after which a Delete indexes past
  the end. `Control.SelectionAfterMerge` is the clamp that closes the gap,
  and `Reselection.InputAfterMerge` runs `handle_input` after it with no
  precondition on the selection.
- Query order: the model keeps the survivors of a despawn in their previous
  order and places spawned black holes last. The engine's table storage does
  not promise that order (see "Left out").
- The random position of a black hole spawned by N is the parameter
  `spawnAt`; the cursor, the window height and held keys are the `Keys` and
  `Steering` records.

## Model

| member | source | states |
|---|---|---|
| `Bodies.SubtractFloored` | src/main.rs:344 | `(v - step).max(floor)` is at least the floor, never above `v` when `v` is at least the floor, and equals `v - step` exactly when that is not below the floor |
| `Bodies.SubtractFlooredTimesClosedForm` | src/main.rs:343-345 | after `n > 0` consecutive floored decrements the value is `max(v - n·step, floor)`, so it never goes below the floor however many are applied |
| `Bodies.HorizonAtReferenceMass` | src/main.rs:297 | under the horizon law, a black hole of mass 1000 has event horizon 15 |
| `Bodies.HorizonMonotone` | src/main.rs:347 | under the horizon law, a heavier black hole never has a smaller event horizon |
| `Bodies.NewBlackHole` | src/main.rs:370-391 | the black hole N spawns sits at the drawn position, has mass 1000 and a horizon derived from that mass |
| `Bodies.NewBlackHoleHorizon` | src/main.rs:372-373 | under the horizon law, the black hole N spawns has event horizon 15, the value `sqrt(1000 / 1000) * 15` |
| `Bodies.StartupHoleFollowsLaw` | src/main.rs:157-169 | the start-up black hole's literal horizon 15 agrees with the law for its mass 1000, and a black hole spawned by N at the window centre equals it |
| `Control.CycleSelection` | src/main.rs:394-400 | Tab with `count > 0` yields an index below `count`: the next index, or 0 after the last; with no black hole the selection is unchanged |
| `Control.RemoveAt` | src/main.rs:402-407 | despawning index `k` leaves one fewer black hole and removes exactly `s[k]` from the multiset; in the model's order-keeping query order the ones before `k` stay in place and the ones after shift down by one |
| `Control.SelectionAfterDelete` | src/main.rs:408 | `selected % (len - 1)` is below `len - 1`; an in-range selection other than the last is kept, the last wraps to 0 |
| `Control.DeleteSelectsFollowing` | src/main.rs:402-410 | in the model's order-keeping query order, after Delete the selection names the black hole that followed the deleted one, or the first when the last was deleted |
| `Control.ResizeParticles` | src/main.rs:412-417 | `+` adds exactly 0.1; `-` alone gives `max(size - 0.1, 0.1)` and never leaves the size below 0.1; a size of at least 0.1 stays at least 0.1; both together leave such a size unchanged; neither leaves it unchanged |
| `Control.ShrinkHeld` | src/main.rs:415-417 | holding `-` for `n` frames from a size of at least 0.1 gives `max(size - 0.1 n, 0.1)`, never below 0.1 |
| `Control.Steer` | src/main.rs:333-351 | the selected black hole follows the cursor (y inverted) only while the left button is held; ArrowUp alone adds exactly 1 mass; with ArrowDown the mass is `max(m' - 10, 1)` where `m'` is the mass after ArrowUp, so at least 1 and never above a mass of at least 1; no arrow keeps the mass; the horizon is re-derived from the new mass |
| `Control.MassHeldDown` | src/main.rs:340-347 | holding ArrowDown alone for `n > 0` frames leaves the black hole in place with mass `max(m - 10 n, 1)`, at least 1, and a horizon matching that mass |
| `Control.SelectionAfterInput` | src/main.rs:394-410 | the selection after the keys: a valid selection stays valid; after Delete it is below the new count; Tab alone makes any selection valid; with neither key it is unchanged |
| `Control.HolesAfterInput` | src/main.rs:370-410 | the black holes after the keys: the count drops by one on Delete and grows by one on N; Delete removes exactly the black hole at the selection after Tab (multiset); otherwise the old black holes are kept in order; in the model's query order N's black hole comes last |
| `Control.SimulationState.constructor` | src/main.rs:95-100 | the resource starts running, with the first black hole selected and particle size 1, which satisfies the size floor |
| `Control.SimulationState.HandleInput` | src/main.rs:357-417 | Space flips `paused`; the particle size, the selection and the black holes become `ResizeParticles`, `SelectionAfterInput` and `HolesAfterInput` of the old state; the particle-size floor is kept; a selection that was in range is in range of the new black holes |
| `Control.SimulationState.TogglePause` | src/main.rs:366-368 | Space flips `paused` and leaves the selection and the particle size as they were |
| `Control.SimulationState.CycleSelected` | src/main.rs:394-400 | Tab sets the selection to `CycleSelection` of the old one and the live count, and changes nothing else |
| `Control.SimulationState.DeleteSelected` | src/main.rs:402-410 | with more than one black hole, the selected one is removed (`RemoveAt`) and the selection re-reduced (`SelectionAfterDelete`); with one or none nothing changes; pause and size are untouched |
| `Control.SimulationState.ResizeHeld` | src/main.rs:412-417 | the particle size becomes `ResizeParticles` of the old size and the held keys, the size floor is kept, and nothing else changes |
| `Control.SelectionAfterMerge` | src/main.rs:293-295 | the corrected step: with black holes left, the selection is in range; an in-range selection is kept; one past the end moves to the last black hole |
| `Control.SimulationState.Reselect` | src/main.rs:293-295 | the selection becomes `SelectionAfterMerge` of the old one and the survivor count, and nothing else changes |
| `Control.PressSpaceTwice` | src/main.rs:366-368 | two frames with only Space pressed restore `paused` and change nothing else |
| `Control.SimulationState.UpdateBlackHoles` | src/main.rs:323-355 | the count of black holes is kept; only the black hole at index `selected` changes, and only with the cursor in the window, where it becomes `Steer` of its old value; with the cursor outside or the selection past the end nothing changes |
| `Merge.DistanceSquared` | src/main.rs:284 | the squared distance between two positions is nonnegative |
| `Merge.Midpoint` | src/main.rs:288 | `(pos1 + pos2) / 2` is equally far from both positions and at half their distance |
| `Merge.CollectMerges` | src/main.rs:274-291 | the nested scan yields exactly the schedule `Schedule(holes)` whose properties the lemmas below state |
| `Merge.ScheduleSound` | src/main.rs:280-289 | every scheduled entry is a pair `i < j < n` closer than 30, carrying the midpoint of the two positions and the sum of the two masses |
| `Merge.ScheduledIffClose` | src/main.rs:284-289 | a pair `i < j` is scheduled if and only if its distance is below 30 |
| `Merge.ScheduleOrdered` | src/main.rs:280-281 | scheduled pairs appear in strictly increasing lexicographic `(i, j)` order, so none twice |
| `Merge.ScheduleSize` | src/main.rs:280-281 | at most `n (n - 1) / 2` merges are scheduled |
| `Merge.Replacement` | src/main.rs:297-310 | the spawned black hole has exactly the entry's position and mass and the horizon derived from that mass |
| `Merge.MergeBlackHoles` | src/main.rs:293-320 | one spawn per scheduled entry, in schedule order, each the entry's replacement, and for each entry a despawn of its first then its second black hole |
| `Merge.ReplacementOfPair` | src/main.rs:288-297 | the replacement for a pair has their summed mass, lies halfway between them, and (masses nonnegative, horizon law) has a horizon at least each of theirs |
| `Merge.MergeOfTwoCoincident` | src/main.rs:280-310 | two black holes of masses 400 and 600 at one place give exactly one merge, whose replacement has mass 1000 and horizon 15 at that place |
| `Reselection.MergeLeavesSelectionOutOfRange` | src/main.rs:280-295 | as written: two coincident black holes and a third at least 30 away schedule exactly the first pair, leaving two of three; the kept selection 2 makes a Delete-only frame index past the end |
| `Reselection.ReselectedDeleteInRange` | src/main.rs:402-408 | after `SelectionAfterMerge`, whatever the keys, the index Delete despawns is in range of the survivors |
| `Reselection.InputAfterMerge` | src/main.rs:357-410 | with the selection re-clamped first, `handle_input` runs on the survivors with any keys, gives `HolesAfterInput` of the clamped state and leaves the selection in range of its result |
| `Particles.Step` | src/main.rs:213-215 | a paused frame returns the particles unchanged; a running frame is the integrator's result |
| `Particles.PausedFramesFreeze` | src/main.rs:213-215 | any number of paused frames leaves every particle as it was, and the first running frame integrates from exactly that state |

## Left out

- Particle integration in `update_particles` (inverse-square force, `normalize`, respawn at a random point inside an event horizon, wrap with float `%`): floating-point numerics and randomness; only the paused early return is modelled, with the integrator as a parameter.
- `update_particle_color`: float hue arithmetic on material handles.
- Gravitational waves (`spawn_gravitational_wave`, `update_gravitational_waves`): presentation only, driven by the engine's `Timer`; the merge model does not emit the wave spawn.
- `time_scale` and the `[`/`]` keys: multiplication and division by 1.1 with no discrete property; the field is not part of the class.
- The engine applying the merge commands (deferred despawns, a black hole in several pairs despawned repeatedly, several replacements spawned): engine semantics; the model stops at the command lists.
- Meshes, materials, transforms' scale (the size `2 * event_horizon`), the camera, `setup`, `handle_window_resize`, `update_ui`, `main`: window, rendering and text creation.
- The order of systems within a frame: not fixed by the source, so no cross-system frame is modelled.
- The query order after a despawn: the model keeps the survivors in their previous order; the engine's storage may reorder them.
- Control.DeleteSelectsFollowing: holds only in the model's order-keeping query order; Bevy's table storage swap-removes a despawned entity, so after Delete of index `k` below the last the former last black hole takes slot `k` and the kept selection names it.
- Control.RemoveAt: the shift-down order is the model's; the engine moves its last entity into the freed slot instead, and only the multiset statement carries over.
- Control.HolesAfterInput: N's black hole is last only in the model's order; in a frame with both N and Delete the spawn is queued before the despawn, so the engine places the new black hole in the freed slot `k` rather than at the end.
- `f32` effects: rounding of `+ 0.1`, of the midpoint and of the square root, and the boundary of `distance < 30` (modelled as the exact `distance² < 900`).
- The z coordinate of translations: always 0 for black holes, dropped.

## Findings

| source | as written | input that shows it | evidently intended | confidence | as-written member | corrected member |
|---|---|---|---|---|---|---|
| src/main.rs:293-295,406 | `merge_black_holes` despawns two black holes per merge and never adjusts `selected_black_hole`; `handle_input` then indexes the query with it | three black holes, the first two at one place, the third 30 or more away and selected (index 2); after the merge two remain and pressing Delete indexes position 2 of two | the selection is brought back into range of the survivors before it is used | not executed | `Reselection.MergeLeavesSelectionOutOfRange` | `Control.SelectionAfterMerge` |

The corrected clamp is used by `Reselection.InputAfterMerge`, and
`Reselection.ReselectedDeleteInRange` proves that after it the index Delete
despawns is always in range.
