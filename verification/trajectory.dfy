/** The trajectory synthesiser of the slider CAPTCHA solver: a discrete
    kinematics loop that accelerates the slider until three fifths of the
    distance and brakes after that, emitting one integer displacement per tick.

    The source keeps the velocity v as a double and uses the time step
    t = 0.2. Here the velocity is kept as the integer Vel = 5 * v, which starts
    at 0 and changes by the acceleration a each tick; the displacement of a tick,
    v * t + a * t * t / 2, is then exactly (2 * Vel + a) / 50. */
module Trajectory {

  const MinInt: int := -0x8000_0000
  const MaxInt: int := 0x7fff_ffff

  /** Acceleration while below the braking threshold, and after it. */
  const SpeedUp: int := 2
  const SlowDown: int := -4

  /** Integer division that rounds toward zero, as Java's int division and
      its (int) cast of a double do. */
  function TruncDiv(n: int, d: int): (q: int)
    requires d > 0
    ensures 0 <= n ==> 0 <= q && d * q <= n < d * q + d
    ensures n < 0 ==> q <= 0 && d * q - d < n <= d * q
  {
    if n >= 0 then n / d
    else
      var p := (-n) / d;
      assert d * p <= -n < d * p + d;
      assert d * (-p) == -(d * p);
      -p
  }

  /** The travelled distance from which the slider brakes: distance * 3 / 5. */
  function Threshold(distance: int): int
  {
    TruncDiv(3 * distance, 5)
  }

  /** The acceleration of a tick that starts at displacement current. */
  function Accel(distance: int, current: int): int
  {
    if current < Threshold(distance) then SpeedUp else SlowDown
  }

  /** The displacement of one tick, truncated toward zero, for scaled velocity
      vel and acceleration a. */
  function TickMove(vel: int, a: int): int
  {
    TruncDiv(2 * vel + a, 50)
  }

  /** Sum of a list of displacements. */
  function Sum(s: seq<int>): int
  {
    if s == [] then 0 else Sum(s[..|s| - 1]) + s[|s| - 1]
  }

  /** The loop's state between ticks: the displacement so far and the scaled
      velocity (5 * v). */
  datatype Motion = Motion(current: int, vel: int)

  /** One tick: pick the acceleration from the displacement, move by the
      truncated kinematic displacement, then update the velocity. */
  function Advance(distance: int, m: Motion): Motion
  {
    var a := Accel(distance, m.current);
    Motion(m.current + TickMove(m.vel, a), m.vel + a)
  }

  /** The state after k ticks, starting at rest at displacement 0. */
  function After(distance: int, k: nat): Motion
  {
    if k == 0 then Motion(0, 0) else Advance(distance, After(distance, k - 1))
  }

  /** The displacement emitted by tick k (counting from 0). */
  function MoveAt(distance: int, k: nat): int
  {
    var m := After(distance, k);
    TickMove(m.vel, Accel(distance, m.current))
  }

  /** `emitted` lists the first ticks of the loop: element k is the move of
      tick k, and the loop was still running (displacement below distance)
      when tick k began. */
  ghost predicate Running(distance: int, emitted: seq<int>)
  {
    forall k | 0 <= k < |emitted| ::
      emitted[k] == MoveAt(distance, k) && After(distance, k).current < distance
  }

  /** `raw` is the whole list the loop appends: it runs as above and stops
      once the displacement reaches distance. */
  ghost predicate Emits(distance: int, raw: seq<int>)
  {
    Running(distance, raw) && After(distance, |raw|).current >= distance
  }

  /** The list the loop built, recovered from a corrected trajectory: every
      element but the last as returned, the last as the kinematics gave it. */
  ghost function Uncorrected(distance: int, s: seq<int>): seq<int>
    requires |s| > 0
  {
    s[..|s| - 1] + [MoveAt(distance, |s| - 1)]
  }

  /** What the final correction adds to the last move: minus the overshoot
      when the displacement went past distance, nothing otherwise. */
  function Correction(distance: int, current: int): (c: int)
    ensures c <= 0
    ensures current >= distance ==> current + c == distance
    ensures current <= distance ==> c == 0
  {
    if current > distance then -(current - distance) else 0
  }

  /** s is the trajectory for distance: the list the loop emits, with the
      overshoot of the final displacement taken off its last element only. */
  ghost predicate IsTrajectory(distance: int, s: seq<int>)
  {
    |s| > 0 &&
    Emits(distance, Uncorrected(distance, s)) &&
    var current := After(distance, |s|).current;
    s[|s| - 1] == MoveAt(distance, |s| - 1) + Correction(distance, current)
  }

  /** Every trajectory for distance has more than n ticks. */
  ghost predicate AllTrajectoriesLonger(distance: int, n: nat)
  {
    forall s :: IsTrajectory(distance, s) ==> |s| > n
  }

  datatype TraceResult =
    | Moves(moves: seq<int>)
      /** distance <= 0: the loop never runs and correcting the last element of
          the empty list fails */
    | EmptyTrace
      /** the tick budget ran out before the displacement reached distance */
    | OutOfTicks

  /** Simulates the drag for distance, giving up after maxTicks ticks. */
  method Trace(distance: int, maxTicks: nat) returns (r: TraceResult)
    requires MinInt <= distance && 3 * distance <= MaxInt
    ensures r.EmptyTrace? <==> distance <= 0
    ensures r.Moves? ==> IsTrajectory(distance, r.moves) && |r.moves| <= maxTicks
    ensures r.Moves? ==> Sum(r.moves) == distance
    ensures r.OutOfTicks? ==> AllTrajectoriesLonger(distance, maxTicks)
  {
    var moveTrace, current := RunTicks(distance, maxTicks);
    if current < distance {
      StartsAtRest(distance, moveTrace);
      BudgetTooSmall(distance, moveTrace);
      return OutOfTicks;
    }
    r := CorrectOvershoot(distance, moveTrace, current);
  }

  /** The kinematics loop: ticks until the displacement reaches distance, or
      until maxTicks ticks have been emitted. */
  method RunTicks(distance: int, maxTicks: nat) returns (moveTrace: seq<int>, current: int)
    requires MinInt <= distance && 3 * distance <= MaxInt
    ensures Running(distance, moveTrace) && current == After(distance, |moveTrace|).current
    ensures current == Sum(moveTrace)
    ensures |moveTrace| <= maxTicks
    ensures current < distance ==> |moveTrace| == maxTicks
  {
    moveTrace := [];
    current := 0;
    var threshold := TruncDiv(3 * distance, 5);
    var vel := 0;
    assert threshold == Threshold(distance);
    while current < distance && |moveTrace| < maxTicks
      invariant |moveTrace| <= maxTicks
      invariant Motion(current, vel) == After(distance, |moveTrace|)
      invariant Running(distance, moveTrace)
      decreases maxTicks - |moveTrace|
    {
      var a := if current < threshold then SpeedUp else SlowDown;
      var move := TruncDiv(2 * vel + a, 50);
      assert a == Accel(distance, current);
      RunOneTick(distance, moveTrace, current, vel);
      vel := vel + a;
      current := current + move;
      moveTrace := moveTrace + [move];
    }
    SumIsDisplacement(distance, moveTrace);
  }

  /** The end of the drag: the overshoot of the last tick is taken off the last
      element, which fails when the loop emitted nothing. */
  method CorrectOvershoot(distance: int, moveTrace: seq<int>, current: int) returns (r: TraceResult)
    requires Emits(distance, moveTrace) && current == After(distance, |moveTrace|).current
    ensures r.EmptyTrace? <==> distance <= 0
    ensures !r.OutOfTicks?
    ensures r.Moves? ==> IsTrajectory(distance, r.moves) && |r.moves| == |moveTrace|
    ensures r.Moves? ==> Sum(r.moves) == distance
  {
    StartsAtRest(distance, moveTrace);
    var length := |moveTrace|;
    if length == 0 {
      return EmptyTrace;
    }
    var corrected := moveTrace[length - 1 := moveTrace[length - 1] + Correction(distance, current)];
    CorrectLast(distance, moveTrace, corrected);
    r := Moves(corrected);
  }

  /** A loop that ran at all started below distance, so distance is positive. */
  lemma StartsAtRest(distance: int, emitted: seq<int>)
    requires Running(distance, emitted)
    ensures After(distance, 0).current == 0
    ensures |emitted| > 0 ==> distance > 0
  {
    if |emitted| > 0 {
      assert After(distance, 0).current < distance;
    }
  }

  /** One more tick of a loop that is still running extends the run by that
      tick's move. */
  lemma RunOneTick(distance: int, emitted: seq<int>, current: int, vel: int)
    requires Running(distance, emitted) && Motion(current, vel) == After(distance, |emitted|)
    requires current < distance
    ensures var a := Accel(distance, current);
      var move := TickMove(vel, a);
      Running(distance, emitted + [move]) &&
      Motion(current + move, vel + a) == After(distance, |emitted + [move]|)
  {
  }

  /** Correcting the last element of the loop's whole list gives the trajectory. */
  lemma CorrectLast(distance: int, raw: seq<int>, s: seq<int>)
    requires Emits(distance, raw) && |raw| > 0
    requires var current := After(distance, |raw|).current;
      s == raw[|raw| - 1 := raw[|raw| - 1] + Correction(distance, current)]
    ensures IsTrajectory(distance, s) && Sum(s) == distance
  {
    assert Uncorrected(distance, s) == raw;
    TrajectorySum(distance, s);
  }

  /** The list the loop emits sums to the simulated displacement. */
  lemma {:induction false} SumIsDisplacement(distance: int, emitted: seq<int>)
    requires Running(distance, emitted)
    ensures Sum(emitted) == After(distance, |emitted|).current
  {
    if emitted != [] {
      var before := emitted[..|emitted| - 1];
      assert Running(distance, before);
      SumIsDisplacement(distance, before);
    }
  }

  /** Without the budget the loop has one length: the first tick at which the
      displacement reaches distance. */
  lemma EmitsUnique(distance: int, raw1: seq<int>, raw2: seq<int>)
    requires Emits(distance, raw1) && Emits(distance, raw2)
    ensures raw1 == raw2
  {
    if |raw1| < |raw2| {
      assert false;
    } else if |raw2| < |raw1| {
      assert false;
    }
  }

  /** When the loop has run for a whole budget without reaching distance, no
      trajectory is that short. */
  lemma BudgetTooSmall(distance: int, emitted: seq<int>)
    requires Running(distance, emitted) && After(distance, |emitted|).current < distance
    ensures AllTrajectoriesLonger(distance, |emitted|)
  {
    forall s | IsTrajectory(distance, s)
      ensures |s| > |emitted|
    {
      LongerThanRun(distance, emitted, s);
    }
  }

  /** A trajectory outlasts every run that has not yet reached distance. */
  lemma LongerThanRun(distance: int, emitted: seq<int>, s: seq<int>)
    requires Running(distance, emitted) && After(distance, |emitted|).current < distance
    requires IsTrajectory(distance, s)
    ensures |s| > |emitted|
  {
    var n := |Uncorrected(distance, s)|;
    assert After(distance, n).current >= distance;
    if n < |emitted| {
      assert false;
    }
  }

  /** Sum of a concatenation. */
  lemma {:induction false} SumConcat(a: seq<int>, b: seq<int>)
    ensures Sum(a + b) == Sum(a) + Sum(b)
    decreases |b|
  {
    if b == [] {
      assert a + b == a;
    } else {
      var b' := b[..|b| - 1];
      var ab := a + b;
      assert ab[..|ab| - 1] == a + b';
      assert Sum(ab) == Sum(a + b') + b[|b| - 1];
      SumConcat(a, b');
    }
  }

  /** A trajectory moves the slider by exactly distance. */
  lemma TrajectorySum(distance: int, s: seq<int>)
    requires IsTrajectory(distance, s)
    ensures Sum(s) == distance
  {
    var raw := Uncorrected(distance, s);
    SumIsDisplacement(distance, raw);
    assert s[..|s| - 1] == raw[..|raw| - 1];
  }

  /** Every proper prefix of a trajectory stays short of distance: the loop
      only stops once the displacement reaches it. */
  lemma ProperPrefixesShort(distance: int, s: seq<int>, k: nat)
    requires IsTrajectory(distance, s) && k < |s|
    ensures Sum(s[..k]) < distance
  {
    var raw := Uncorrected(distance, s);
    assert s[..k] == raw[..k];
    assert Running(distance, raw[..k]);
    SumIsDisplacement(distance, raw[..k]);
  }

  /** The correction touches the last element only: the earlier elements are
      the moves of their ticks, and the last is the move of its tick reduced
      by the overshoot of the uncorrected list, which is never negative. */
  lemma OnlyLastCorrected(distance: int, s: seq<int>)
    requires IsTrajectory(distance, s)
    ensures forall k | 0 <= k < |s| - 1 :: s[k] == MoveAt(distance, k)
    ensures var overshoot := Sum(Uncorrected(distance, s)) - distance;
      0 <= overshoot && s[|s| - 1] == MoveAt(distance, |s| - 1) - overshoot
  {
    var raw := Uncorrected(distance, s);
    SumIsDisplacement(distance, raw);
    forall k | 0 <= k < |s| - 1
      ensures s[k] == MoveAt(distance, k)
    {
      assert s[k] == raw[k];
    }
  }

  /** There is at most one trajectory for a distance. */
  lemma TrajectoryUnique(distance: int, s1: seq<int>, s2: seq<int>)
    requires IsTrajectory(distance, s1) && IsTrajectory(distance, s2)
    ensures s1 == s2
  {
    var raw1, raw2 := Uncorrected(distance, s1), Uncorrected(distance, s2);
    EmitsUnique(distance, raw1, raw2);
    RebuildFromRaw(distance, s1);
    RebuildFromRaw(distance, s2);
  }

  /** A trajectory is its uncorrected list with the last element corrected. */
  lemma RebuildFromRaw(distance: int, s: seq<int>)
    requires IsTrajectory(distance, s)
    ensures var raw := Uncorrected(distance, s);
      var current := After(distance, |raw|).current;
      s == raw[..|raw| - 1] + [raw[|raw| - 1] + Correction(distance, current)]
  {
    var n := |s|;
    assert s == s[..n - 1] + [s[n - 1]];
  }

  /** A distance of zero or less has no trajectory. */
  lemma NoTrajectoryWithoutDistance(distance: int, s: seq<int>)
    requires IsTrajectory(distance, s)
    ensures distance > 0
  {
    assert After(distance, 0).current < distance;
  }

  /** The settle motif the drag always ends with: overshoot by 5, then come
      back by 3 and by 2. */
  const SettleMotif: seq<int> := [5, -3, -2]

  /** The steps sent to the pointer between press and release: the
      trajectory, then the settle motif, which adds no net displacement. */
  function DragSteps(trajectory: seq<int>): (steps: seq<int>)
    ensures |steps| == |trajectory| + 3
    ensures steps[..|trajectory|] == trajectory
    ensures steps[|trajectory|..] == SettleMotif
    ensures Sum(steps) == Sum(trajectory)
  {
    var steps := trajectory + SettleMotif;
    assert steps[|trajectory|..] == SettleMotif;
    assert steps[..|trajectory|] == trajectory;
    SumConcat(trajectory, SettleMotif);
    assert SettleMotif[..2] == [5, -3] && [5, -3][..1] == [5];
    steps
  }
}
