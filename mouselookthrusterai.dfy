/**
 * The mouse-look thruster AI: it keeps the model's thrust envelope (how
 * much each attached thruster can push forward, backward, right, left and
 * turn either way) and, for each input, turns the requested heading and
 * thrust into targets and lets the greedy allocator set the coefficients
 * of the attached thrusters.
 *
 * The trigonometry of the input (the angle between the facing and the
 * requested heading, and the cosine and sine of the relative thrust
 * direction) and the body's angular velocity and inverse inertia arrive
 * as parameters.
 */
module MouseLookThrusterAIs {
  import opened Util
  import opened Parts
  import Vehicles
  import opened ThrusterAIUtils

  // ---------------------------------------------------------------------
  // The thrust envelope.
  // ---------------------------------------------------------------------

  /** The six one-sided capacities of `calculateThrusterValues`. */
  datatype Envelope = Envelope(forward: real, backward: real, right: real, left: real, ccw: real, cw: real)

  /** The part of `x` above zero. */
  function Positive(x: real): real { if x > 0.0 then x else 0.0 }

  /** One more thruster: when attached, each force component and the torque count on the side its sign points to. */
  function AddThrust(e: Envelope, s: Thrust): Envelope
  {
    if !s.attached then e
    else Envelope(e.forward + Positive(s.force.0), e.backward + Positive(-s.force.0),
                  e.right + Positive(s.force.1), e.left + Positive(-s.force.1),
                  e.ccw + Positive(s.torque), e.cw + Positive(-s.torque))
  }

  /** The capacities summed over the attached thrusters. */
  function EnvelopeOf(ss: seq<Thrust>): (e: Envelope)
    ensures e.forward >= 0.0 && e.backward >= 0.0 && e.right >= 0.0
    ensures e.left >= 0.0 && e.ccw >= 0.0 && e.cw >= 0.0
  {
    if ss == [] then Envelope(0.0, 0.0, 0.0, 0.0, 0.0, 0.0)
    else AddThrust(EnvelopeOf(ss[..|ss| - 1]), ss[|ss| - 1])
  }

  /** The plain sums of the attached thrusters' forces and torques. */
  function NetOf(ss: seq<Thrust>): Triple
  {
    if ss == [] then Triple(0.0, 0.0, 0.0)
    else
      var n := NetOf(ss[..|ss| - 1]);
      var s := ss[|ss| - 1];
      if s.attached then Plus(n, Triple(s.force.0, s.force.1, s.torque)) else n
  }

  /**
   * Each pair of opposite capacities differs by the plain sum: forward
   * minus backward is the total forward force of the attached thrusters,
   * and likewise right minus left and counter-clockwise minus clockwise.
   */
  lemma {:induction false} EnvelopeSpansNet(ss: seq<Thrust>)
    ensures EnvelopeOf(ss).forward - EnvelopeOf(ss).backward == NetOf(ss).f
    ensures EnvelopeOf(ss).right - EnvelopeOf(ss).left == NetOf(ss).r
    ensures EnvelopeOf(ss).ccw - EnvelopeOf(ss).cw == NetOf(ss).t
  {
    if ss != [] {
      EnvelopeSpansNet(ss[..|ss| - 1]);
    }
  }

  /** Detached thrusters add nothing to the envelope. */
  lemma {:induction false} EnvelopeSkipsDetached(ss: seq<Thrust>, s: Thrust)
    requires !s.attached
    ensures EnvelopeOf(ss + [s]) == EnvelopeOf(ss)
  {
    assert (ss + [s])[..|ss|] == ss;
  }

  // ---------------------------------------------------------------------
  // Targets and thruster selection.
  // ---------------------------------------------------------------------

  /** A cosine or sine scaled by the capacity on the side its sign points to. */
  function Sided(k: real, pos: real, neg: real): real
  {
    k * (if k > 0.0 then pos else neg)
  }

  /**
   * The forward and right targets: zero without thrust, otherwise the
   * cosine and sine of the thrust direction scaled by the capacity on the
   * side they point to.
   */
  function ThrustTargets(thrustPower: real, c: real, s: real, e: Envelope): (real, real)
  {
    if thrustPower / 255.0 != 0.0 then (Sided(c, e.forward, e.backward), Sided(s, e.right, e.left))
    else (0.0, 0.0)
  }

  /**
   * No thrust asks for nothing, and a direction given by a cosine and sine
   * never asks for more than the envelope offers on that side.
   */
  lemma ThrustTargetsWithinEnvelope(thrustPower: real, c: real, s: real, e: Envelope)
    requires -1.0 <= c <= 1.0 && -1.0 <= s <= 1.0
    requires e.forward >= 0.0 && e.backward >= 0.0 && e.right >= 0.0 && e.left >= 0.0
    ensures thrustPower == 0.0 ==> ThrustTargets(thrustPower, c, s, e) == (0.0, 0.0)
    ensures -e.backward <= ThrustTargets(thrustPower, c, s, e).0 <= e.forward
    ensures -e.left <= ThrustTargets(thrustPower, c, s, e).1 <= e.right
  {
    SidedWithin(c, e.forward, e.backward);
    SidedWithin(s, e.right, e.left);
  }

  /** A value within [-1, 1] scaled by the capacity on its side stays within the two capacities. */
  lemma SidedWithin(k: real, pos: real, neg: real)
    requires -1.0 <= k <= 1.0 && pos >= 0.0 && neg >= 0.0
    ensures -neg <= Sided(k, pos, neg) <= pos
  {
    if k > 0.0 {
      FractionBelow(k, pos);
      assert Sided(k, pos, neg) == k * pos;
    } else {
      NegativeFractionAbove(k, neg);
      assert Sided(k, pos, neg) == k * neg;
    }
  }

  /** A negative fraction of a non-negative capacity stays above its negation. */
  lemma NegativeFractionAbove(k: real, x: real)
    requires -1.0 <= k <= 0.0 && x >= 0.0
    ensures -x <= k * x <= 0.0
  {
    assert x + k * x == (1.0 + k) * x;
    assert (1.0 + k) * x >= 0.0;
  }

  /** A fraction of a non-negative capacity stays within it. */
  lemma FractionBelow(k: real, x: real)
    requires 0.0 <= k <= 1.0 && x >= 0.0
    ensures 0.0 <= k * x <= x
  {
    assert x - k * x == (1.0 - k) * x;
    assert (1.0 - k) * x >= 0.0;
  }

  /** The attached thrusters of a list, in order. */
  function AttachedOf(ts: seq<Gizmo>): (r: seq<Gizmo>)
    reads (set g | g in ts)`isAttached
    ensures forall g :: g in r ==> g in ts && g.isAttached
    ensures forall g :: g in ts && g.isAttached ==> g in r
    ensures |r| <= |ts|
  {
    if ts == [] then []
    else AttachedOf(ts[..|ts| - 1]) + (if ts[|ts| - 1].isAttached then [ts[|ts| - 1]] else [])
  }

  /**
   * The reset-and-filter pass of `setThrustersFromInput`: every thruster's
   * coefficient goes to zero and the attached ones are kept, in order.
   */
  method ResetAndFilter(ts: seq<Gizmo>) returns (attached: seq<Gizmo>)
    modifies (set g | g in ts)`coeff
    ensures attached == old(AttachedOf(ts))
    ensures forall g :: g in attached ==> g in ts && g.isAttached
    ensures forall g :: g in ts ==> g.coeff == 0.0
  {
    attached := [];
    for i := 0 to |ts|
      invariant attached == old(AttachedOf(ts[..i]))
      invariant forall k :: 0 <= k < i ==> ts[k].coeff == 0.0
    {
      assert ts[..i + 1][..i] == ts[..i];
      var thruster := ts[i];
      thruster.coeff := 0.0;
      if thruster.isAttached {
        attached := attached + [thruster];
      }
    }
    assert ts[..|ts|] == ts;
  }

  /**
   * One call of the allocator from the loop's condition: only attached
   * thrusters change, and only to coefficients within [0, 1]; with an
   * `undefined` torque target nothing changes and the step converges.
   */
  method AllocatorStep(ts: seq<Gizmo>, attached: seq<Gizmo>, tgtF: real, tgtR: real, tgtT: Option<real>,
                       weightF: real, weightR: real, weightT: real) returns (converged: bool)
    requires forall g :: g in attached ==> g in ts && g.isAttached
    modifies (set g | g in ts)`coeff
    ensures forall g :: g in ts && g.coeff != old(g.coeff) ==> g.isAttached && 0.0 <= g.coeff <= 1.0
    ensures tgtT.None? ==> converged && forall g :: g in ts ==> g.coeff == old(g.coeff)
  {
    converged := true;
    if tgtT.Some? {
      converged := IterateOnce(attached, tgtF, tgtR, tgtT.value, weightF, weightR, weightT);
    }
  }

  /**
   * The bounded loop of `setThrustersFromInput`: the allocator runs on the
   * attached thrusters until it converges, at most twice the number of all
   * thrusters. An `undefined` torque target makes every error `NaN`, so the
   * first step finds nothing to adjust. Only attached thrusters change, and
   * coefficients stay within [0, 1].
   */
  method RunAllocator(ts: seq<Gizmo>, attached: seq<Gizmo>, tgtF: real, tgtR: real, tgtT: Option<real>,
                      weightF: real, weightR: real, weightT: real) returns (iterations: nat)
    requires forall g :: g in attached ==> g in ts && g.isAttached
    requires forall g :: g in ts ==> 0.0 <= g.coeff <= 1.0
    requires forall g :: g in ts && !g.isAttached ==> g.coeff == 0.0
    modifies (set g | g in ts)`coeff
    ensures iterations <= 2 * |ts|
    ensures forall g :: g in ts ==> 0.0 <= g.coeff <= 1.0
    ensures forall g :: g in ts && !g.isAttached ==> g.coeff == 0.0
    ensures tgtT.None? ==> forall g :: g in ts ==> g.coeff == old(g.coeff)
  {
    iterations := 0;
    while iterations < 2 * |ts|
      invariant iterations <= 2 * |ts|
      invariant forall g :: g in ts ==> 0.0 <= g.coeff <= 1.0
      invariant forall g :: g in ts && !g.isAttached ==> g.coeff == 0.0
      invariant tgtT.None? ==> forall g :: g in ts ==> g.coeff == old(g.coeff)
      decreases 2 * |ts| - iterations
    {
      var converged := AllocatorStep(ts, attached, tgtF, tgtR, tgtT, weightF, weightR, weightT);
      if converged {
        break;
      }
      iterations := iterations + 1;
    }
  }

  /** The model events `start` subscribes `calculateThrusterValues` to. */
  predicate Refreshes(e: Vehicles.Event)
  {
    e.GizmosLoad? || e.ThrustersUpdate?
  }

  class MouseLookThrusterAI {
    /**
     * The entity's model once started; `null` before. The thruster array
     * the base component aliases is this model's, so both read
     * `model.thrusters`.
     */
    var model: Vehicles.VehicleModel?
    /** Whether the refresh is subscribed to the model's events. */
    var subscribed: bool
    var maxForward: real
    var maxBackward: real
    var maxRight: real
    var maxLeft: real
    var maxCCW: real
    var maxCW: real
    var weightF: real
    var weightR: real
    var weightT: real

    /** A new AI has no model and no subscription, an empty envelope, and weights 1, 1 and 7. */
    constructor ()
      ensures model == null && !subscribed
      ensures Capacities() == Envelope(0.0, 0.0, 0.0, 0.0, 0.0, 0.0)
      ensures weightF == 1.0 && weightR == 1.0 && weightT == 7.0
    {
      model := null;
      subscribed := false;
      maxForward, maxBackward, maxRight, maxLeft, maxCCW, maxCW := 0.0, 0.0, 0.0, 0.0, 0.0, 0.0;
      weightF, weightR, weightT := 1.0, 1.0, 7.0;
    }

    function Capacities(): Envelope
      reads this
    {
      Envelope(maxForward, maxBackward, maxRight, maxLeft, maxCCW, maxCW)
    }

    /**
     * `calculateThrusterValues`: all six capacities are reset and then
     * summed over the model's attached thrusters. Without a model the
     * reset happens and reading its thrusters throws.
     */
    method CalculateThrusterValues() returns (out: Outcome)
      modifies this`maxForward, this`maxBackward, this`maxRight, this`maxLeft, this`maxCCW, this`maxCW
      ensures model == null ==> out == Fail("TypeError") && Capacities() == Envelope(0.0, 0.0, 0.0, 0.0, 0.0, 0.0)
      ensures model != null ==> out == Pass && Capacities() == EnvelopeOf(States(model.thrusters))
    {
      maxForward, maxBackward, maxRight, maxLeft, maxCCW, maxCW := 0.0, 0.0, 0.0, 0.0, 0.0, 0.0;
      if model == null {
        return Fail("TypeError");
      }
      var ts := model.thrusters;
      ghost var ss := States(ts);
      for i := 0 to |ts|
        invariant Capacities() == EnvelopeOf(ss[..i])
      {
        assert ss[..i + 1][..i] == ss[..i];
        assert ss[i] == StateOf(ts[i]);
        AddThruster(ts[i]);
      }
      assert ss[..|ts|] == ss;
      assert forall k :: 0 <= k < |ts| ==> StateOf(ts[k]) == ss[k];
      assert States(ts) == ss;
      return Pass;
    }

    /** The body of `calculateThrusterValues`' loop: one thruster added to the six capacities. */
    method AddThruster(thruster: Gizmo)
      modifies this`maxForward, this`maxBackward, this`maxRight, this`maxLeft, this`maxCCW, this`maxCW
      ensures Capacities() == AddThrust(old(Capacities()), StateOf(thruster))
    {
      if thruster.isAttached {
        var fx, fy, torque := thruster.localForce.0, thruster.localForce.1, thruster.torque;
        maxForward := maxForward + (if fx > 0.0 then fx else 0.0);
        maxRight := maxRight + (if fy > 0.0 then fy else 0.0);
        maxBackward := maxBackward + (if fx < 0.0 then -fx else 0.0);
        maxLeft := maxLeft + (if fy < 0.0 then -fy else 0.0);
        maxCCW := maxCCW + (if torque > 0.0 then torque else 0.0);
        maxCW := maxCW + (if torque < 0.0 then -torque else 0.0);
      }
    }

    /**
     * `start`: takes the entity's model, subscribes the refresh to its
     * 'gizmos:load' and 'thrusters:update' events, and computes the
     * envelope right away when the model is already loaded.
     */
    method Start(m: Vehicles.VehicleModel)
      modifies this
      ensures model == m && subscribed
      ensures weightF == old(weightF) && weightR == old(weightR) && weightT == old(weightT)
      ensures m.isLoaded ==> Capacities() == EnvelopeOf(States(m.thrusters))
      ensures !m.isLoaded ==> Capacities() == old(Capacities())
    {
      model := m;
      subscribed := true;
      if m.isLoaded {
        var _ := CalculateThrusterValues();
      }
    }

    /** `dispose`: every subscription of this component on the model is dropped. */
    method Dispose()
      modifies this`subscribed
      ensures !subscribed
    {
      subscribed := false;
    }

    /**
     * The model's emitter delivering `events`, the ones the model appended
     * to its log, in order: while subscribed, every 'gizmos:load' and
     * 'thrusters:update' recomputes the envelope from the model's current
     * thrusters. So after any such event the envelope is the one of the
     * thrusters as they now stand, and otherwise it is unchanged.
     */
    method Notify(events: seq<Vehicles.Event>)
      requires subscribed ==> model != null
      modifies this`maxForward, this`maxBackward, this`maxRight, this`maxLeft, this`maxCCW, this`maxCW
      ensures subscribed && (exists k :: 0 <= k < |events| && Refreshes(events[k])) ==>
        Capacities() == EnvelopeOf(States(model.thrusters))
      ensures !(subscribed && exists k :: 0 <= k < |events| && Refreshes(events[k])) ==>
        Capacities() == old(Capacities())
    {
      if !subscribed {
        return;
      }
      ghost var seen := false;
      for i := 0 to |events|
        invariant seen <==> exists k :: 0 <= k < i && Refreshes(events[k])
        invariant seen ==> Capacities() == EnvelopeOf(States(model.thrusters))
        invariant !seen ==> Capacities() == old(Capacities())
      {
        if Refreshes(events[i]) {
          var _ := CalculateThrusterValues();
          seen := true;
        }
      }
    }

    /**
     * `setThrustersFromInput`: the shared aim object is updated for the
     * turn, every thruster's coefficient is reset, and the allocator is run
     * on the attached ones while it still changes something, at most twice
     * the number of thrusters. Detached thrusters end switched off, every
     * coefficient ends within [0, 1], and nothing is allocated while the
     * aim's torque is `undefined`. Before `start` there is no list and the
     * filter throws.
     */
    method SetThrustersFromInput(thrustPower: real, thrustCos: real, thrustSin: real, targetAngle: real,
                                 angularVelocity: real, inverseInertia: real, aim: TargetTorqueResult)
      returns (out: Outcome, iterations: nat)
      requires inverseInertia > 0.0
      modifies aim, (set g | model != null && g in model.thrusters)`coeff
      ensures aim.Value() == TargetTorque(old(aim.ccw), angularVelocity, targetAngle, inverseInertia, maxCCW, -maxCW)
      ensures model == null ==> out == Fail("TypeError") && iterations == 0
      ensures model != null ==> out == Pass && iterations <= 2 * |model.thrusters|
      ensures model != null ==> forall g :: g in model.thrusters ==> 0.0 <= g.coeff <= 1.0
      ensures model != null ==> forall g :: g in model.thrusters && !g.isAttached ==> g.coeff == 0.0
      ensures model != null && aim.torque.None? ==> forall g :: g in model.thrusters ==> g.coeff == 0.0
    {
      aim.FindTargetTorque(angularVelocity, targetAngle, inverseInertia, maxCCW, -maxCW);
      var targets := ThrustTargets(thrustPower, thrustCos, thrustSin, Capacities());
      if model == null {
        return Fail("TypeError"), 0;
      }
      var ts := model.thrusters;
      var attached := ResetAndFilter(ts);
      iterations := RunAllocator(ts, attached, targets.0, targets.1, aim.torque, weightF, weightR, weightT);
      return Pass, iterations;
    }
  }
}
