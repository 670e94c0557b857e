/**
 * The thruster allocator's two helpers: `iterateOnce`, one greedy step that
 * moves a single thruster's coefficient to the point of its line closest to
 * the weighted (forward, right, torque) target, and `findTargetTorque`, the
 * branch logic that picks the torque a mouse-look turn asks for.
 *
 * Numbers are `real`: rounding of doubles is not modelled. Where the source
 * lets `undefined`, `Infinity` or `NaN` flow through a comparison, the model
 * spells the outcome out (`Option`, `Distance`).
 */
module ThrusterAIUtils {
  import opened Util
  import opened Parts

  const STEP_RATE: real := 60.0
  /** The physics step, `1 / stepRate`. */
  const DT: real := 1.0 / 60.0

  // ---------------------------------------------------------------------
  // The weighted force space.
  // ---------------------------------------------------------------------

  /** A point of the weighted (forward, right, torque) space. */
  datatype Triple = Triple(f: real, r: real, t: real)

  function Dot(a: Triple, b: Triple): real { a.f * b.f + a.r * b.r + a.t * b.t }
  function Plus(a: Triple, b: Triple): Triple { Triple(a.f + b.f, a.r + b.r, a.t + b.t) }
  function Minus(a: Triple, b: Triple): Triple { Triple(a.f - b.f, a.r - b.r, a.t - b.t) }
  function Scale(a: Triple, k: real): Triple { Triple(a.f * k, a.r * k, a.t * k) }

  /** What the allocator reads of one thruster. */
  datatype Thrust = Thrust(attached: bool, force: Vec, torque: real, coeff: real)

  function StateOf(g: Gizmo): Thrust
    reads g
  {
    Thrust(g.isAttached, g.localForce, g.torque, g.coeff)
  }

  /** The thrusters' readings, in list order. */
  function States(ts: seq<Gizmo>): (r: seq<Thrust>)
    reads set g | g in ts
    ensures |r| == |ts| && forall i :: 0 <= i < |ts| ==> r[i] == StateOf(ts[i])
  {
    if ts == [] then [] else States(ts[..|ts| - 1]) + [StateOf(ts[|ts| - 1])]
  }

  /** The weighted line a thruster slides the total along: its full contribution. */
  function Direction(s: Thrust, w: Triple): Triple
  {
    Triple(s.force.0 * w.f, s.force.1 * w.r, s.torque * w.t)
  }

  /** The weighted total the thrusters give at their current coefficients. */
  function Current(ss: seq<Thrust>, w: Triple): Triple
  {
    if ss == [] then Triple(0.0, 0.0, 0.0)
    else Plus(Current(ss[..|ss| - 1], w), Scale(Direction(ss[|ss| - 1], w), ss[|ss| - 1].coeff))
  }

  function Clamp01(n: real): (r: real)
    ensures 0.0 <= r <= 1.0
    ensures 0.0 <= n <= 1.0 ==> r == n
  {
    if n > 1.0 then 1.0 else if n < 0.0 then 0.0 else n
  }

  function Abs(x: real): real { if x < 0.0 then -x else x }

  // ---------------------------------------------------------------------
  // One greedy step.
  // ---------------------------------------------------------------------

  /** 1e-16: a move smaller than this is not worth considering. */
  const SKIP_TOLERANCE: real := 1.0 / 10_000_000_000_000_000.0

  /** A thruster's proposed coefficient and the squared error it would leave. */
  datatype Proposal = Proposal(distSq: real, coeff: real)

  /**
   * What one thruster proposes: nothing when its line is a point (it cannot
   * move the total) or when the clamped projection of the target onto its
   * line is within 1e-16 of where it already is; otherwise that projection
   * and the error it leaves.
   */
  function Candidate(s: Thrust, cur: Triple, target: Triple, w: Triple): (r: Option<Proposal>)
    ensures Dot(Direction(s, w), Direction(s, w)) == 0.0 ==> r.None?
    ensures r.Some? ==> 0.0 <= r.value.coeff <= 1.0 && Abs(s.coeff - r.value.coeff) >= SKIP_TOLERANCE
    ensures r.Some? ==> r.value.distSq >= 0.0
  {
    var dir := Direction(s, w);
    var dirDot := Dot(dir, dir);
    if dirDot == 0.0 then None
    else
      var origin := Minus(cur, Scale(dir, s.coeff));
      var t := Clamp01(Dot(dir, Minus(target, origin)) / dirDot);
      if Abs(s.coeff - t) < SKIP_TOLERANCE then None
      else
        var error := Minus(Plus(origin, Scale(dir, t)), target);
        Some(Proposal(Dot(error, error), t))
  }

  /** The thruster the step adjusts, with its new coefficient. */
  datatype Choice = Choice(index: nat, distSq: real, coeff: real)

  /**
   * The scan over the thrusters: a proposal replaces the best so far only
   * when its error is strictly smaller; with none found the best stays at
   * "infinity" (`None`).
   */
  function Closest(ss: seq<Thrust>, cur: Triple, target: Triple, w: Triple): (r: Option<Choice>)
    ensures r.Some? ==> r.value.index < |ss|
  {
    if ss == [] then None
    else
      var best := Closest(ss[..|ss| - 1], cur, target, w);
      match Candidate(ss[|ss| - 1], cur, target, w)
      case None => best
      case Some(p) =>
        if best.None? || p.distSq < best.value.distSq then Some(Choice(|ss| - 1, p.distSq, p.coeff))
        else best
  }

  /**
   * The step picks a thruster exactly when some thruster proposes a move,
   * and the one it picks leaves the smallest error of all proposals, being
   * the first in the list among those that tie.
   */
  lemma {:induction false} ClosestIsFirstMinimum(ss: seq<Thrust>, cur: Triple, target: Triple, w: Triple)
    ensures Closest(ss, cur, target, w).None? <==> forall i :: 0 <= i < |ss| ==> Candidate(ss[i], cur, target, w).None?
    ensures Closest(ss, cur, target, w).Some? ==>
      var c := Closest(ss, cur, target, w).value;
      c.index < |ss| && Candidate(ss[c.index], cur, target, w) == Some(Proposal(c.distSq, c.coeff))
      && (forall i :: 0 <= i < |ss| && Candidate(ss[i], cur, target, w).Some? ==>
            c.distSq <= Candidate(ss[i], cur, target, w).value.distSq)
      && (forall i :: 0 <= i < c.index && Candidate(ss[i], cur, target, w).Some? ==>
            c.distSq < Candidate(ss[i], cur, target, w).value.distSq)
  {
    if ss != [] {
      var init := ss[..|ss| - 1];
      ClosestIsFirstMinimum(init, cur, target, w);
      assert forall i :: 0 <= i < |init| ==> init[i] == ss[i];
    }
  }

  /** `iterateOnce`'s first pass: the weighted total at the current coefficients. */
  method CurrentTotal(ts: seq<Gizmo>, w: Triple) returns (cur: Triple)
    ensures cur == Current(States(ts), w)
  {
    ghost var ss := States(ts);
    cur := Triple(0.0, 0.0, 0.0);
    for i := 0 to |ts|
      invariant cur == Current(ss[..i], w)
    {
      assert ss[..i + 1][..i] == ss[..i];
      var s := StateOf(ts[i]);
      cur := Plus(cur, Scale(Direction(s, w), s.coeff));
    }
    assert ss[..|ts|] == ss;
  }

  /** `iterateOnce`'s second pass: the best proposal, scanning in list order. */
  method FindClosest(ts: seq<Gizmo>, cur: Triple, target: Triple, w: Triple) returns (best: Option<Choice>)
    ensures best == Closest(States(ts), cur, target, w)
  {
    ghost var ss := States(ts);
    best := None;
    for i := 0 to |ts|
      invariant best == Closest(ss[..i], cur, target, w)
    {
      assert ss[..i + 1][..i] == ss[..i];
      var p := Candidate(StateOf(ts[i]), cur, target, w);
      if p.Some? && (best.None? || p.value.distSq < best.value.distSq) {
        best := Some(Choice(i, p.value.distSq, p.value.coeff));
      }
    }
    assert ss[..|ts|] == ss;
  }

  /**
   * `iterateOnce`: the thruster `Closest` picks gets its proposed
   * coefficient and the step answers false; when none is picked (always so
   * for an empty list) nothing changes and the step answers true. Only
   * coefficients are written, so at most one of them changes, and one
   * changes exactly when the answer is false.
   */
  method IterateOnce(ts: seq<Gizmo>, tgtF: real, tgtR: real, tgtT: real, weightF: real, weightR: real, weightT: real)
    returns (converged: bool)
    modifies (set g | g in ts)`coeff
    ensures var w := Triple(weightF, weightR, weightT);
      var ss := old(States(ts));
      var c := Closest(ss, Current(ss, w), Triple(tgtF * weightF, tgtR * weightR, tgtT * weightT), w);
      (converged <==> c.None?)
      && (c.Some? ==>
            ts[c.value.index].coeff == c.value.coeff
            && forall g :: g in ts && g != ts[c.value.index] ==> g.coeff == old(g.coeff))
    ensures ts == [] ==> converged
    ensures converged <==> forall g :: g in ts ==> g.coeff == old(g.coeff)
    ensures forall g :: g in ts && g.coeff != old(g.coeff) ==> 0.0 <= g.coeff <= 1.0
  {
    ghost var ss := States(ts);
    var w := Triple(weightF, weightR, weightT);
    var target := Triple(tgtF * weightF, tgtR * weightR, tgtT * weightT);
    if |ts| == 0 {
      return true;
    }
    var cur := CurrentTotal(ts, w);
    var best := FindClosest(ts, cur, target, w);
    ClosestIsFirstMinimum(ss, cur, target, w);
    match best
    case None =>
      converged := true;
    case Some(c) =>
      assert ss[c.index].coeff != c.coeff;
      ts[c.index].coeff := c.coeff;
      converged := false;
  }

  // ---------------------------------------------------------------------
  // The mouse-look torque.
  // ---------------------------------------------------------------------

  /**
   * A braking distance as the source computes it: finite, or infinite when
   * the braking torque is zero (the sign of the infinity is not kept).
   */
  datatype Distance = Measured(v: real) | Unbounded

  /** The fields of `findTargetTorque`'s result; `torque` is `None` where the source leaves it `undefined`. */
  datatype Aim = Aim(angle: real, brakeDist: Distance, ccw: bool, frozen: bool, torque: Option<real>)

  /** `nonZeroSign`; `undefined > 0` is false, so `None` counts as negative. */
  function NonZeroSign(x: Option<real>): int
  {
    if x.Some? && x.value > 0.0 then 1 else -1
  }

  /**
   * Whether the spin can be stopped within one step while aiming (nearly)
   * straight at the target: a spin counter-clockwise is checked against the
   * clockwise capacity and any other against the counter-clockwise one.
   */
  predicate Freezes(angularVelocity: real, inverseInertia: real, maxCCW: real, maxCW: real)
  {
    if angularVelocity > 0.0 then angularVelocity + maxCW * inverseInertia * DT < 0.0
    else angularVelocity + maxCCW * inverseInertia * DT > 0.0
  }

  /**
   * The braking test, when already turning the way the target lies: the
   * distance covered while braking with `brake`, and whether it reaches the
   * target. An `undefined` brake gives `NaN` (no braking); a zero brake
   * gives an infinite distance, or `NaN` when there is no spin at all.
   */
  function Braking(ccw: bool, angularVelocity: real, targetAngle: real, brake: Option<real>, inverseInertia: real): (bool, Distance)
    requires inverseInertia > 0.0
  {
    if ccw != (angularVelocity > 0.0) || brake.None? then (false, Measured(0.0))
    else if brake.value == 0.0 then (angularVelocity != 0.0, Unbounded)
    else
      var brakeTime := -angularVelocity / (brake.value * inverseInertia);
      var brakeDist := brakeTime * angularVelocity * 0.5;
      (Abs(brakeDist) - Abs(targetAngle) > -0.01, Measured(brakeDist))
  }

  /** The torque that reaches the target angle in one step. */
  function OptimalTorque(targetAngle: real, angularVelocity: real, inverseInertia: real): real
    requires inverseInertia > 0.0
  {
    (targetAngle / DT - angularVelocity) / (DT * inverseInertia)
  }

  /**
   * The last stage: the desired torque is cut down to the optimal one when
   * both push the same way, the desired is larger, and the torque then
   * available for stopping covers what stopping next step requires.
   * `Math.abs(undefined)` is `NaN`, so an `undefined` torque never passes
   * a comparison.
   */
  function Settle(desired: Option<real>, brake: Option<real>, targetAngle: real, angularVelocity: real, inverseInertia: real): Option<real>
    requires inverseInertia > 0.0
  {
    var optimal := OptimalTorque(targetAngle, angularVelocity, inverseInertia);
    if NonZeroSign(desired) == NonZeroSign(Some(optimal)) && desired.Some? && Abs(desired.value) > Abs(optimal) then
      var required := -(targetAngle / DT) / (DT * inverseInertia);
      var available := if NonZeroSign(desired) == NonZeroSign(Some(required)) then desired else brake;
      if available.Some? && Abs(required) <= Abs(available.value) then Some(optimal) else desired
    else desired
  }

  /** The torques the turn wants and brakes with, and its direction. */
  datatype Heading = Heading(desired: Option<real>, brake: Option<real>, ccw: bool)

  /**
   * A negative target angle turns clockwise, a positive one
   * counter-clockwise; an angle of exactly zero selects no torques
   * (`undefined`) and keeps the direction the result object had.
   */
  function HeadingOf(prevCcw: bool, targetAngle: real, maxCCW: real, maxCW: real): Heading
  {
    if targetAngle < 0.0 then Heading(Some(maxCW), Some(maxCCW), false)
    else if targetAngle > 0.0 then Heading(Some(maxCCW), Some(maxCW), true)
    else Heading(None, None, prevCcw)
  }

  /** The aim when the spin is not frozen: brake if needed, then settle the torque. */
  function Moving(h: Heading, angularVelocity: real, targetAngle: real, inverseInertia: real): Aim
    requires inverseInertia > 0.0
  {
    var b := Braking(h.ccw, angularVelocity, targetAngle, h.brake, inverseInertia);
    if b.0 then Aim(targetAngle, b.1, h.ccw, false, Settle(h.brake, h.desired, targetAngle, angularVelocity, inverseInertia))
    else Aim(targetAngle, Measured(0.0), h.ccw, false, Settle(h.desired, h.brake, targetAngle, angularVelocity, inverseInertia))
  }

  /**
   * `findTargetTorque` as a function of its inputs and the `ccw` its
   * reused result object held before the call. The turn direction follows
   * the sign of the target angle and is left as it was for an angle of
   * exactly zero; the aim is frozen exactly when the angle is below 0.01
   * and the spin can be stopped in one step, and then the torque is the
   * one that cancels the spin with no braking distance. Otherwise the
   * torque is one of the two capacities or the optimal torque, and it is
   * `undefined` exactly when the angle is zero; a braking distance is only
   * recorded while already turning towards the target.
   */
  function TargetTorque(prevCcw: bool, angularVelocity: real, targetAngle: real, inverseInertia: real, maxCCW: real, maxCW: real): (r: Aim)
    requires inverseInertia > 0.0
    ensures r.angle == targetAngle
    ensures (targetAngle < 0.0 ==> !r.ccw) && (targetAngle > 0.0 ==> r.ccw) && (targetAngle == 0.0 ==> r.ccw == prevCcw)
    ensures r.frozen <==> Abs(targetAngle) < 0.01 && Freezes(angularVelocity, inverseInertia, maxCCW, maxCW)
    ensures r.frozen ==> r.torque == Some(-angularVelocity / (DT * inverseInertia)) && r.brakeDist == Measured(0.0)
    ensures !r.frozen ==> (r.torque.None? <==> targetAngle == 0.0)
    ensures !r.frozen && r.torque.Some? ==>
      r.torque.value == maxCCW || r.torque.value == maxCW
      || r.torque.value == OptimalTorque(targetAngle, angularVelocity, inverseInertia)
    ensures r.brakeDist != Measured(0.0) ==> r.ccw == (angularVelocity > 0.0)
  {
    var h := HeadingOf(prevCcw, targetAngle, maxCCW, maxCW);
    if Abs(targetAngle) < 0.01 && Freezes(angularVelocity, inverseInertia, maxCCW, maxCW) then
      Aim(targetAngle, Measured(0.0), h.ccw, true, Some(-angularVelocity / (DT * inverseInertia)))
    else
      Moving(h, angularVelocity, targetAngle, inverseInertia)
  }

  /** `findTargetTorque`'s reused result object. */
  class TargetTorqueResult {
    var angle: real
    var brakeDist: Distance
    var ccw: bool
    var frozen: bool
    var torque: Option<real>

    constructor ()
      ensures angle == 0.0 && brakeDist == Measured(0.0) && ccw && !frozen && torque == Some(0.0)
    {
      angle := 0.0;
      brakeDist := Measured(0.0);
      ccw := true;
      frozen := false;
      torque := Some(0.0);
    }

    function Value(): Aim
      reads this
    {
      Aim(angle, brakeDist, ccw, frozen, torque)
    }

    /** `findTargetTorque`: overwrites the result object with the aim for these inputs. */
    method FindTargetTorque(angularVelocity: real, targetAngle: real, inverseInertia: real, maxCCW: real, maxCW: real)
      requires inverseInertia > 0.0
      modifies this
      ensures Value() == TargetTorque(old(ccw), angularVelocity, targetAngle, inverseInertia, maxCCW, maxCW)
    {
      ghost var h := HeadingOf(ccw, targetAngle, maxCCW, maxCW);
      var desiredTorque: Option<real> := None;
      var brakeTorque: Option<real> := None;
      if targetAngle < 0.0 {
        desiredTorque := Some(maxCW);
        brakeTorque := Some(maxCCW);
        ccw := false;
      } else if targetAngle > 0.0 {
        desiredTorque := Some(maxCCW);
        brakeTorque := Some(maxCW);
        ccw := true;
      }
      assert h == Heading(desiredTorque, brakeTorque, ccw);
      angle := targetAngle;

      if Abs(targetAngle) < 0.01 {
        var freeze := false;
        if angularVelocity > 0.0 {
          var freezeAccel := maxCW * inverseInertia;
          freeze := angularVelocity + freezeAccel * DT < 0.0;
        } else {
          var freezeAccel := maxCCW * inverseInertia;
          freeze := angularVelocity + freezeAccel * DT > 0.0;
        }
        assert freeze == Freezes(angularVelocity, inverseInertia, maxCCW, maxCW);
        if freeze {
          torque := Some(-angularVelocity / (DT * inverseInertia));
          brakeDist := Measured(0.0);
          frozen := true;
          return;
        }
      }
      frozen := false;

      var b := Braking(ccw, angularVelocity, targetAngle, brakeTorque, inverseInertia);
      if b.0 {
        brakeDist := b.1;
        desiredTorque, brakeTorque := brakeTorque, desiredTorque;
      } else {
        brakeDist := Measured(0.0);
      }
      torque := Settle(desiredTorque, brakeTorque, targetAngle, angularVelocity, inverseInertia);
    }
  }
}
