# Circles: a verified model of the particle field

The TypeScript code is an Angular component that fills the window with 800 small
circles. Each circle drifts at a constant speed, bounces off the window edges,
grows by one unit per frame while the mouse pointer is within 50 units of it on
both axes, and shrinks by one unit per frame back to its own starting radius
otherwise. This project models that behaviour in Dafny and proves its
properties:

- `circle.dfy`, module `Circles`: the state of one circle (`CircleState`), the
  per-frame step as a function (`Step`), the construction of a circle from
  random draws (`Spawn`), and the `Circle` class whose constructor and `Update`
  method change the fields in place, proved equal to those functions.
- `trajectory.dfy`, module `Trajectories`: one circle over a finite run of
  frames. The radius invariant holds after any number of frames. The speed
  and `minRadius` never change. The radius grows steadily while the pointer
  stays near, and shrinks steadily onto `minRadius` while it stays away.
- `app.dfy`, module `App`: the component's construction loop (`Populate`),
  one animation frame over all circles (`Animate`), and `Run`, which builds
  the circles and runs the first frame.

Arithmetic is exact (`real`). The window size (`innerWidth`, `innerHeight`)
and the global pointer position are read by the component inside `update`. Here
they are a `Frame` parameter. The pointer is `None` before the first mouse
event. `Math.random` becomes an explicit sequence of draws in [0, 1), used six
per circle in the component's call order: radius, x, y, the two velocity
components, and then the colour inside the `Circle` constructor.

## Where the code and its description differ

The model follows the code.

- The radius is not bounded by `maxRadius` (40). Growth happens whenever
  `radius < 40` and adds a whole 1. A radius that is not a whole number, such as
  39.5, therefore becomes 40.5 (`RadiusMayPassMax`). The bound that holds is
  `minRadius <= radius < 41`, with `radius - minRadius` a whole number
  (`Circles.Inv`), in exact arithmetic, which is what the model uses; IEEE
  doubles can break it (see "## Left out").
- A circle does not stay within one frame's motion of the surface. The wall test
  flips the velocity whenever the circle overlaps the wall, even if it is
  already moving away, so a circle that grows while touching a wall does not
  move away from it: its velocity flips every frame, its
  centre jitters between two positions, and its radius grows across the wall,
  so the overlap grows by about one per frame (`WallOverlapGrows`:
  an overlap of 3 after four frames at speed 0.5).
- With a surface exactly `2 * radius` wide, the starting x is exactly `radius`.
  The half-open range `[radius, width - radius)` would be empty there, so
  `Spawn` states the closed range, and the strict upper bound only when the
  surface is wider. For a narrower surface it states where x lands instead.

## Model

| member | source | states |
|---|---|---|
| `Circles.Step` | src/app/app.component.ts:62-88 | `dx` is negated exactly when `x + radius > width` or `x - radius < 0` held before moving, once even if both held, and is unchanged otherwise; likewise `dy` with the height. The speeds `|dx|` and `|dy|` are kept. The new position is the old one plus the reflected velocity. With the pointer strictly inside the 50-unit box around the new position, the radius grows by exactly 1 if below 40 and is unchanged otherwise. With the pointer absent or outside, it shrinks by exactly 1 if above `minRadius` and is unchanged otherwise. An absent pointer is never near. `minRadius` and the colour never change. |
| `Circles.StepKeepsInv` | src/app/app.component.ts:82-87 | One step keeps `minRadius <= radius < maxRadius + 1` and keeps `radius - minRadius` a whole number. |
| `Circles.Circle.Update` | src/app/app.component.ts:62-88 | The in-place update of the fields leaves the circle in the state `Step` gives from its old state. |
| `Circles.Circle.constructor` | src/app/app.component.ts:32-53 | The new circle holds the given position, velocity, radius and `minRadius`, and the palette colour picked by the colour draw. |
| `Circles.ColorIndex` | src/app/app.component.ts:52 | `floor(draw * 5)` for a draw in [0, 1) is a valid index into the five-colour palette, the integer part of `draw * 5`. |
| `Circles.Place` | src/app/app.component.ts:143-144 | `draw * (extent - 2r) + r` lies in `[r, extent - r]` when `extent >= 2r`, and below `extent - r` when `extent > 2r`. When the circle cannot fit, it lies in `(extent - r, r]`. |
| `Circles.Spawn` | src/app/app.component.ts:137-151 | A new circle has `1 <= radius < 4` and `minRadius == radius`. It starts inside the surface in both axes whenever the surface is at least `2 * radius` across. Each velocity component is in `[-0.5, 0.5)`. The colour is from the palette. The radius invariant holds from the start. |
| `App.Populate` | src/app/app.component.ts:135-154 | The loop builds exactly 800 new, distinct circles. Circle `i` is in the state `Spawn` gives for the `i`-th group of six draws. |
| `App.Animate` | src/app/app.component.ts:159-161 | One frame pass updates every circle exactly once against the same frame. Circle `i` ends in the state `Step` gives from its own old state. The list of circles, its length and its elements' identities do not change. |
| `App.Run` | src/app/app.component.ts:123-164 | Without a canvas or a context, nothing is built. Otherwise there are 800 new, distinct circles, each in the state of its spawned state after the first frame. |
| `Trajectories.Trajectory` | src/app/app.component.ts:156-164 | Over any finite run of frames, a circle keeps its `minRadius`, its colour and its speeds `|dx|`, `|dy|`. |
| `Trajectories.TrajectoryKeepsInv` | src/app/app.component.ts:82-87 | The radius invariant holds after any number of frames. |
| `Trajectories.Nearness` | src/app/app.component.ts:74-81 | Gives, for each frame, whether the pointer was in the box around the moved circle. The box is never hit in a frame without a pointer. |
| `Trajectories.NearnessIsPerFrame` | src/app/app.component.ts:71-81 | Entry `i` of the nearness sequence is the box test with frame `i`'s pointer against the position the circle has after its first `i + 1` frames. |
| `Trajectories.TrajectoryRadius` | src/app/app.component.ts:74-87 | The radius after a run of frames depends only on the radius, `minRadius` and the per-frame nearness. |
| `Trajectories.GrowthCeiling` | src/app/app.component.ts:82-84 | Steady growth from below 40 stops at the first whole step at or past 40, which is below 41. From 40 or more, the radius holds. |
| `Trajectories.SustainedGrowth` | src/app/app.component.ts:82-84 | With the pointer near in every frame, `n` frames give `min(radius + n, ceiling)`. |
| `Trajectories.SustainedShrink` | src/app/app.component.ts:85-87 | With the pointer away in every frame, a radius `k` steps above the minimum is `max(k - n, 0)` steps above it after `n` frames. |
| `Trajectories.GrowsWhileNear` | src/app/app.component.ts:74-84 | A circle with the pointer in its box on every frame grows by one per frame up to the growth ceiling, then holds. |
| `Trajectories.ShrinksWhileAway` | src/app/app.component.ts:74-87 | A circle satisfying the invariant, with the pointer never in its box, loses one per frame. After at least `radius - minRadius` frames it is exactly at `minRadius`. |
| `Trajectories.RadiusMayPassMax` | src/app/app.component.ts:82-83 | Any standing circle of radius 39.5 with `minRadius` 1.5 satisfies the invariant, and with the pointer on it grows to 40.5, past `maxRadius`. |
| `Trajectories.WallOverlapGrows` | src/app/app.component.ts:63-83 | A circle of radius 4 at x = 95 moving right at 0.5 towards a wall at 100, with the pointer on it, is back at x = 95 after four frames with radius 8: it overlaps the wall by 3, far more than one frame's motion. |

## Left out

- Drawing: `draw`, `beginPath`/`arc`/`fill`, `clearRect` and the canvas resize through `canvas.width`/`canvas.height`. These are rendering calls with no state the model observes. The drawing context `c` is not a field of `Circle`.
- Scheduling: `requestAnimationFrame` and the endless frame loop. The model has one frame pass (`Animate`), the first frame inside `Run`, and finite runs of frames for one circle (`Trajectory`).
- The restart on resize, which leaves the old loop running. This is host scheduling, not particle logic.
- Angular wiring: `@ViewChild`, `ngAfterViewInit`, and the `mousemove` and `resize` listeners. The canvas and context null checks become the `canvasReady` flag of `Run`. The pointer position becomes the `mouse` field of `Frame`.
- The static `Circle.minRadius = 2`: nothing reads it; each circle uses its own `minRadius`.
- IEEE floating point: all arithmetic is exact over `real`, so rounding is not modelled. With doubles, `radius += 1` can round when the sum crosses a power of two; `radius -= 1` is exact for a radius of 1 or more. That can break the whole-step invariant, and the radius can then fall up to 1 below `minRadius`. For example, a starting radius of 1 + 3·2^-52 grows to 2 + 4·2^-52 and then shrinks twice to about 8.9e-16. `Circles.Inv`, `StepKeepsInv`, `TrajectoryKeepsInv` and `ShrinksWhileAway` hold only in exact arithmetic.
- `Math.random`: replaced by an explicit stream of draws in [0, 1). The model does not claim anything about the distribution.
- App.Animate: requires the circles to be distinct objects. The only list it is given, the one `Populate` builds, is distinct.
