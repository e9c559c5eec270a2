# scurrying-beetle: the wander generator and its animation loop, in Dafny

This project models the logic of the scurrying-beetle firmware. The firmware
animates a 32×32 beetle sprite on a 128×64 monochrome OLED. The beetle walks
in straight lines between random targets on the screen.

- `wrappers.dfy` (module `Wrappers`): `Option` and `Outcome`, the Rust
  `Option` and `Result<(), E>` shapes.
- `wander.dfy` (module `Wander`): the wander generator of `src/wanderer.rs`.
  - The class `Wanderer` has constant endpoints and a constant `steps`, the
    Chebyshev distance `max(|Δx|, |Δy|)`.
  - Its mutable `progress` field counts the points emitted so far.
  - `Next` emits the point `start + trunc(progress/steps · Δ)` on each axis, or
    `None` when the endpoints are equal or the walk is exhausted.
  - The whole sequence a fresh walk emits is the function `Trajectory`. The
    laws of the walk are lemmas about that function: length, exact endpoint,
    containment in the bounding box, unit steps on the dominant axis, and a
    king-move chain.
  - The class ties itself to `Trajectory` through the ghost view
    `Remaining()`, the points still to come.
- `beetle.dfy` (module `Beetle`): the logic of `src/main.rs`.
  - `RandomTarget` is the target picker. It takes the generator's two draws as
    inputs.
  - `Draw` is the sprite rasterizer. It returns the pixel writes it attempted,
    in order, and stops at the first one the display rejects.
  - `RenderFrame` is the drawing half of a frame tick.
  - The class `Animation` holds the main loop's locals: position, target and
    the current `Wanderer`. `FrameTick` is the frame-tick branch of the loop.

The random generator and the display are passed in as values. `FrameTick`
receives the next two 64-bit draws; the picker uses them only when it needs a
new target. The display's answer to each pixel write is a function
`Point -> Outcome<E>`.

The firmware computes intermediate points in single-precision floating point.
This model instead takes the exact quotient `progress · Δ / steps` and
truncates it toward zero, as Rust's float-to-integer cast does (`TruncDiv`).
The divisor is never zero. `Next` divides only
after its two guards, and `Chebyshev` proves that `steps == 0` exactly when
the endpoints are equal. So `Next` always divides by `steps >= 1`.

One detail of `src/main.rs` shapes `FrameTick`. At line 101, the pattern
`Some((x, y))` binds new variables that shadow the loop's `x` and `y`. The
loop's position therefore changes only when a walk ends: it then becomes the
old target (line 107). The sprite is drawn at the walk's point, but the
position stays at the walk's start.

## Model

| member | source | states |
|---|---|---|
| `Wander.Chebyshev` | src/wanderer.rs:15 | the step count is at least each axis distance and equals one of them, and it is 0 exactly when start and destination coincide |
| `Wander.TruncDiv` | src/wanderer.rs:39-41 | the quotient is rounded toward zero: for a non-negative dividend it is the floor, for a negative one the ceiling |
| `Wander.Trajectory` | src/wanderer.rs:32-42 | length law: a walk emits no points when the endpoints are equal, otherwise exactly `max(|Δx|, |Δy|)` points |
| `Wander.AxisWithin` | src/wanderer.rs:39-41 | after k of `steps` steps, one axis's offset lies between 0 and that axis's Δ |
| `Wander.AxisEnd` | src/wanderer.rs:39-41 | at `progress == steps` the offset is exactly Δ, with no rounding drift |
| `Wander.AxisDominant` | src/wanderer.rs:39-41 | on an axis whose distance equals `steps`, the offset after k steps is k units in Δ's direction |
| `Wander.AxisDominantMoves` | src/wanderer.rs:38-41 | on the dominant axis every step changes the offset, so every call emits a new point |
| `Wander.AxisStep` | src/wanderer.rs:38-41 | one more step changes an axis offset by 0 or by one unit towards the destination |
| `Wander.EndpointLaw` | src/wanderer.rs:39-41 | the last point of a non-empty walk is exactly the destination |
| `Wander.Containment` | src/wanderer.rs:39-41 | every emitted point lies in the inclusive bounding box of start and destination |
| `Wander.DominantAxisUnitSteps` | src/wanderer.rs:39-41 | on the dominant axis, the i-th point (0-based) is start + (i+1)·sign(Δ), so that coordinate moves one unit per call and is monotone |
| `Wander.StepFrom` | src/wanderer.rs:38-41 | the move from the point after k steps to the point after k+1 steps is a king move towards the destination that changes the point |
| `Wander.KingWalk` | src/wanderer.rs:32-42 | start → first point and every pair of consecutive points are king moves that never step away from the destination on either axis |
| `Wander.HorizontalWalk` | src/wanderer.rs:31-43 | a walk from (16,16) to (20,16) emits (17,16), (18,16), (19,16), (20,16) |
| `Wander.StationaryWalk` | src/wanderer.rs:32-34 | a walk from (10,10) to (10,10) emits nothing |
| `Wander.ShallowWalk` | src/wanderer.rs:39-41 | a walk from (0,0) to (4,2) emits (1,0), (2,1), (3,1), (4,2) |
| `Wander.DiagonalWalkHome` | src/wanderer.rs:31-43 | a walk from (5,5) to (0,0) emits (4,4), (3,3), (2,2), (1,1), (0,0) |
| `Wander.VerticalWalk` | src/wanderer.rs:31-43 | a `Wanderer` from (0,0) to (0,3), called five times, returns (0,1), (0,2), (0,3) and then None twice: it emits its points in order and stays exhausted |
| `Wander.Wanderer.constructor` | src/wanderer.rs:14-25 | endpoints are stored, `steps == max(|Δx|, |Δy|)`, `progress == 0`; the points to come are exactly `Trajectory` of the endpoints, so equal endpoints always give equal sequences |
| `Wander.Wanderer.Exhausted` | src/wanderer.rs:32-37 | the Exhausted state (equal endpoints, or `progress == steps`) holds exactly when no points remain |
| `Wander.Wanderer.Next` | src/wanderer.rs:31-43 | returns None exactly when the endpoints are equal or `progress == steps`, and then nothing changes (idempotent exhaustion); otherwise progress grows by exactly 1 and the result is the next point of the trajectory, consumed from the points to come; endpoints and `steps` never change and `0 <= progress <= steps` is kept |
| `Beetle.AsI32` | src/main.rs:129 | Rust's `u64 as i32` yields an i32 value, and is lossless below 2^31 |
| `Beetle.RandomTarget` | src/main.rs:120-130 | the target is `(r1 % 96 + 16, r2 % 32 + 16)` for the two draws, so the casts lose nothing, `16 <= x < 112` and `16 <= y < 48` |
| `Beetle.TargetCoversInset` | src/main.rs:121-127 | every centre of the inset rectangle is picked by some pair of draws |
| `Beetle.ZeroDrawsTarget` | src/main.rs:120-130 | with both draws 0 the target is (16, 16) |
| `Beetle.SpritePixels` | src/main.rs:137-140 | the sprite has one pixel per bitmap entry, in bitmap order |
| `Beetle.SpriteCentered` | src/main.rs:137-140 | every sprite pixel lies in the 32×32 square `[cx-16, cx+16) × [cy-16, cy+16)` |
| `Beetle.SpriteOnScreen` | src/main.rs:137-140 | a sprite centred in the inset rectangle lies wholly on the 128×64 screen |
| `Beetle.Draw` | src/main.rs:132-143 | writes `(cx-16+dx, cy-16+dy)` for the bitmap entries in order; Ok exactly when every write succeeds, and then all were written; otherwise it returns the error of the last write attempted, every earlier write succeeded, and no later write was made |
| `Beetle.RenderFrame` | src/main.rs:101-105 | drawing at a centre of the inset rectangle either renders every sprite pixel or faults at the first failing write, and every write is on screen |
| `Beetle.WanderStaysInset` | src/main.rs:107-109 | a walk between two centres of the inset rectangle never leaves it |
| `Beetle.Animation.constructor` | src/main.rs:93-96 | the position starts at (16, 16), the target is the first pick, and the first walk runs from (16, 16) to that target |
| `Beetle.Animation.FrameTick` | src/main.rs:100-111 | if the walk has a next point, the sprite is drawn there with every write on screen, and position, target and walk object are kept; otherwise nothing is drawn, the position becomes the old target, a new target is picked from the draws, and a fresh walk starts at the old target; the position and target always stay in the inset rectangle and the walk always runs from the position to the target |

## Left out

- Wander.Wanderer.Next: intermediate points use exact truncation of `progress · Δ / steps`, not the source's `f32` division and multiply. The two can differ by one pixel when rounding in `f32` crosses an integer. The last point agrees in both, because `progress/steps` is exactly 1.0 there.
- Wander.AxisDominant: holds for the exact-truncation model only. In the firmware's `f32` arithmetic, with `steps` = 22 and k = 13, `fl(fl(13/22)·22)` falls just below 13, so the cast yields a dominant-axis offset of 12 where the lemma states 13. This is the walk (16,16)→(38,16).
- Wander.AxisStep: holds for the exact-truncation model only. In the same `f32` walk (`steps` = 22), the dominant-axis offset goes from 12 at k = 13 to 14 at k = 14, a step of two units, which the lemma rules out.
- Wander.AxisDominantMoves: holds for the exact-truncation model only. In the firmware's `f32` arithmetic, `fl(fl(k/n)·n)` can fall just below `k`, so the cast yields `k - 1`. For the walk (16,16)→(38,16), calls 12 and 13 both return (28,16), and call 14 returns (30,16); the model returns (29,16) at call 13.
- Wander.DominantAxisUnitSteps: holds for the exact-truncation model only. The firmware's `f32` arithmetic can repeat a dominant-axis coordinate and then jump two pixels, as in the walk (16,16)→(38,16) at calls 12-14 (28, 28, 30 where the model gives 28, 29, 30).
- Wander.StepFrom: holds for the exact-truncation model only. The `f32` walk (16,16)→(38,16) repeats (28,16) from call 12 to call 13, a move that is not a point-changing king move, and then moves from (28,16) to (30,16), two pixels.
- Wander.KingWalk: holds for the exact-truncation model only, for the same reason: the `f32` walk (16,16)→(38,16) repeats a point at calls 12-13 and jumps two pixels at call 14. `EndpointLaw` and `Containment` hold for the `f32` arithmetic too, because `p` is exactly 1.0 on the last step and never exceeds 1.0 before it.
- i32 overflow of `dest - start`, and `abs(i32::MIN)` in `src/wanderer.rs:15` and `src/wanderer.rs:40-41`, are not modelled: coordinates are unbounded integers. Every coordinate the firmware uses lies in the 128×64 screen.
- The WyRand generator and its ADC seed are not modelled: the generator is an abstract source of 64-bit draws, passed in as values.
- Hardware bring-up in `src/main.rs:38-91` is not modelled: clocks, UART, I²C, the SSD1309 builder, the reset-pin delays, the ADC and the LED pin are foreign HAL calls.
- The `select3` wait, the three tickers and the async executor are not modelled; they provide cooperative scheduling and timing. The heartbeat branch (an LED toggle) and the UART branch (bytes read and discarded) have no logic.
- The display's `flush` and `clear`, and its clipping of off-screen pixels, are not modelled. `SpriteOnScreen` shows that clipping never applies to a sprite centred in the inset rectangle.
- A failed pixel write ends in `unwrap` and the panic handler, which loops forever (`src/main.rs:102`, `src/main.rs:145-149`). The model stops at the `Faulted` result of the tick; the halt itself is not modelled.
- The contents of `BEETLE_MAP` are not modelled. The file holding it is generated by `generate_map.py` and is not part of this model. The sprite is any sequence of byte pairs below 32, which is what that script emits.
