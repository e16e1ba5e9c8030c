# Slider CAPTCHA solver: gap locator and drag trajectory

This project models the two algorithms of the `SildeCode` slider-CAPTCHA
solver that do the actual solving, and proves what they promise.

- **Gap locator** (`gap_locator.dfy`, module `GapLocator`). Two screenshots of
  the same challenge are compared. Two pixels are "equal" when each of red,
  green and blue differs by less than 80; alpha is ignored. Columns are
  scanned from x = 60 to the right edge, and within a column the rows are
  scanned from top to bottom. The first column that holds a mismatching pixel
  is the gap. If the scanned region matches everywhere, the scan fails with
  "gap not found". The images are parameters of `GetGap`, not fields of an
  object. An image is a width, a height and a grid of `(red, green, blue,
  alpha)` pixels indexed by column, then row.
- **Trajectory synthesiser** (`trajectory.dfy`, module `Trajectory`). This is a
  discrete kinematics loop with time step t = 0.2. While the displacement is
  below `distance * 3 / 5`, the acceleration is +2; otherwise it is -4. Each
  tick emits the truncated displacement `v*t + a*t*t/2` and then updates the
  velocity. The loop stops once the displacement reaches `distance`. Any
  overshoot is then taken off the last element only. The velocity is kept as
  the integer `Vel = 5 * v`, so a tick's displacement is exactly
  `(2 * Vel + a) / 50`, rounded toward zero as Java's `(int)` cast does
  (`TruncDiv`). The moves can be negative: the slider really does swing back
  and forth around the braking threshold before it arrives.
  The predicates `Running`, `Emits` and `IsTrajectory` say which list the loop
  produces. They are stated tick by tick through `After(distance, k)`, the
  displacement and velocity after k ticks. `RunTicks` (the loop),
  `CorrectOvershoot` (the final correction) and `Trace` (both together) are
  the imperative code, and each is proved against those predicates.

`DragSteps` is the step list that the drag replays between press and release:
the trajectory followed by the fixed settle motif `[5, -3, -2]`.

Two behaviours of the Java code that the model keeps:

- In `trace` (SildeCode.java:169, 184-185), a distance of 0 or less does not
  give an empty trajectory. The loop never runs, and correcting the last
  element of the empty list throws (`EmptyTrace`).
- In `getGap` (SildeCode.java:140-141), images of different sizes are not
  rejected by a check of their own. Equal size is a precondition
  (`SameSize`).

## Model

| member | source | states |
|---|---|---|
| `GapLocator.EqualPixelWithinTolerance` | SildeCode/src/main/java/SildeCode.java:115-128 | two pixels are equal exactly when each of red, green and blue lies strictly within 80 of the other pixel's value |
| `GapLocator.EqualPixelReflexive` | SildeCode/src/main/java/SildeCode.java:122-124 | a pixel always equals itself |
| `GapLocator.EqualPixelSymmetric` | SildeCode/src/main/java/SildeCode.java:122-124 | the tolerance test gives the same answer with the two pixels swapped |
| `GapLocator.EqualPixelIgnoresAlpha` | SildeCode/src/main/java/SildeCode.java:116-124 | changing the alpha of either pixel never changes the verdict |
| `GapLocator.GetGap` | SildeCode/src/main/java/SildeCode.java:140-152 | a returned column x is the gap: 60 <= x < width, some row of x mismatches, and every column from 60 to x-1 matches in every row; "gap not found" is returned only when every scanned column matches |
| `GapLocator.GapUnique` | SildeCode/src/main/java/SildeCode.java:144-149 | at most one column satisfies the gap condition, so the scan's answer is fixed by the images |
| `GapLocator.GapAtOrBefore` | SildeCode/src/main/java/SildeCode.java:144-149 | any differing scanned column has the gap at or to its left |
| `GapLocator.GapOrNoGap` | SildeCode/src/main/java/SildeCode.java:144-152 | "no scanned column differs" holds exactly when no gap exists, so the two outcomes of the scan cover every image pair |
| `GapLocator.IdenticalImagesHaveNoGap` | SildeCode/src/main/java/SildeCode.java:144-152 | comparing an image with itself finds no gap |
| `GapLocator.NarrowImagesHaveNoGap` | SildeCode/src/main/java/SildeCode.java:142-144 | an image at most 60 pixels wide is never scanned and has no gap |
| `GapLocator.GapSymmetric` | SildeCode/src/main/java/SildeCode.java:138-146 | swapping the two screenshots does not change the gap |
| `GapLocator.ShiftedBandIsGap` | SildeCode/src/main/java/SildeCode.java:142-149 | if a copy differs only in columns k..m (k >= 60), where every red value moved by at least 80, the gap is k |
| `Trajectory.TruncDiv` | SildeCode/src/main/java/SildeCode.java:179 | the quotient is rounded toward zero: it has the sign of the dividend and lies within one divisor of it on the side nearer zero |
| `Trajectory.Trace` | SildeCode/src/main/java/SildeCode.java:162-187 | the result is an error exactly when distance <= 0; otherwise it is the one trajectory for distance and sums to distance; when the tick budget runs out, every trajectory is longer than the budget |
| `Trajectory.RunTicks` | SildeCode/src/main/java/SildeCode.java:163-182 | the loop's list is the kinematic run (acceleration +2 below distance*3/5 and -4 from there, truncated move, velocity update), every tick started below distance, current is the list's sum, and the loop stops only at distance or at the budget |
| `Trajectory.CorrectOvershoot` | SildeCode/src/main/java/SildeCode.java:184-185 | correcting the last element fails exactly when distance <= 0; otherwise it yields a trajectory of the same length summing to distance |
| `Trajectory.StartsAtRest` | SildeCode/src/main/java/SildeCode.java:164-169 | the run starts at displacement 0, so a loop that ran at all had a positive distance |
| `Trajectory.RunOneTick` | SildeCode/src/main/java/SildeCode.java:169-181 | one tick from a running state appends the kinematic move and advances the state by that move and by the acceleration |
| `Trajectory.CorrectLast` | SildeCode/src/main/java/SildeCode.java:184-185 | subtracting the overshoot from the last element of the loop's whole list gives a trajectory that sums to distance |
| `Trajectory.SumIsDisplacement` | SildeCode/src/main/java/SildeCode.java:180-181 | the sum of the appended moves equals the simulated displacement |
| `Trajectory.EmitsUnique` | SildeCode/src/main/java/SildeCode.java:169-182 | the loop's whole list is determined by distance: it stops at the first tick that reaches distance |
| `Trajectory.BudgetTooSmall` | SildeCode/src/main/java/SildeCode.java:169 | a run that has used its budget without reaching distance is shorter than every trajectory |
| `Trajectory.LongerThanRun` | SildeCode/src/main/java/SildeCode.java:169 | a trajectory is longer than any run that has not yet reached distance |
| `Trajectory.TrajectorySum` | SildeCode/src/main/java/SildeCode.java:184-185 | the elements of a trajectory sum to exactly distance |
| `Trajectory.ProperPrefixesShort` | SildeCode/src/main/java/SildeCode.java:169-180 | every proper prefix of a trajectory sums to less than distance |
| `Trajectory.OnlyLastCorrected` | SildeCode/src/main/java/SildeCode.java:184-185 | all elements but the last are the raw per-tick moves; the last is its raw move minus the overshoot, which is never negative |
| `Trajectory.RebuildFromRaw` | SildeCode/src/main/java/SildeCode.java:185 | a trajectory is the loop's list with only its last element corrected |
| `Trajectory.TrajectoryUnique` | SildeCode/src/main/java/SildeCode.java:162-187 | there is at most one trajectory for a distance |
| `Trajectory.NoTrajectoryWithoutDistance` | SildeCode/src/main/java/SildeCode.java:169-185 | a distance of 0 or less has no trajectory; there is no empty-trajectory result |
| `Trajectory.DragSteps` | SildeCode/src/main/java/SildeCode.java:212-221 | the replayed steps are the trajectory followed by the settle steps 5, -3, -2, and their net displacement equals the trajectory's |

## Left out

- Trace: takes a tick budget `maxTicks`, and the source loop has none. A
  verified method must terminate, and nothing here bounds the number of ticks
  for every distance. When the budget runs out the result is `OutOfTicks`.
  `Trace` proves that this happens only when no trajectory fits in the budget,
  so for a large enough budget it returns what the source returns.
- Trace: the doubles `v` and `t = 0.2` are replaced by exact integer
  arithmetic on `Vel = 5 * v`. Java's `0.4` and `-0.8` velocity steps are not
  exact in binary. Where `2 * Vel + a` is an exact multiple of 50, the double
  result can land just off the integer: just below it for a positive move, or
  just above it for a negative one. The `(int)` cast then truncates to a
  value one nearer zero than the exact result. That tick's displacement then
  differs, and every later tick follows from the changed displacement.
- Trace: only the overflow of `distance * 3` is modelled, as a precondition.
  The 32-bit `current += move` and the saturation of the `(int)` cast are not
  wrapped or clamped; the model uses unbounded integers there.
- The browser session, page navigation, element waits, JavaScript calls,
  screenshots and saving them to files (`init`, `WaitMostSeconds`, `savePng`,
  `saveCode`, `prepare`) are I/O. They are not part of this model.
- Reading the two PNG files inside `getGap` is file I/O; the images are
  parameters instead. The file names are not part of this model either.
  (`saveCode` writes `有缺口.png`, while `getGap` reads `缺口.png`.)
- The decoding of packed ARGB integers by `java.awt.Color` is a library call.
  Pixels are modelled directly as four channels from 0 to 255.
- The pointer actuation in `move` and `moveWithoutWait` is left out: press,
  the zero-delay relative moves, release and the 500 ms pause. Only the list
  of steps it replays is modelled (`DragSteps`).
- The `left -= 7` calibration in `main` is a constant offset applied in glue
  code.
