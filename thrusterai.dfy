/**
 * The basic thruster AI component: it aliases the model's thruster array
 * when it starts and, for each input, drives straight ahead by firing
 * exactly the thrusters that point backwards.
 */
module ThrusterAIs {
  import opened Util
  import opened Parts
  import Vehicles

  /**
   * The coefficient the basic AI gives a thruster: full power exactly when
   * some thrust is asked for and the thruster's angle is zero, none
   * otherwise.
   */
  function ForwardCoeff(thrustPower: real, angle: real): (c: real)
    ensures c == 1.0 <==> thrustPower != 0.0 && angle == 0.0
    ensures c == 0.0 || c == 1.0
  {
    if thrustPower != 0.0 && angle == 0.0 then 1.0 else 0.0
  }

  class ThrusterAI {
    /**
     * The model whose thruster array `start` aliases; `null` before. The
     * model only ever splices, pushes onto and truncates that array, so
     * reading `model.thrusters` at each call sees what the alias sees.
     */
    var model: Vehicles.VehicleModel?

    constructor ()
      ensures model == null
    {
      model := null;
    }

    /** `start`: takes the thruster array of the entity's model. */
    method Start(m: Vehicles.VehicleModel)
      modifies this`model
      ensures model == m
    {
      model := m;
    }

    /**
     * `setThrustersFromInput`: every thruster of the model's current list
     * gets `ForwardCoeff` of the input's thrust power and its own angle, so
     * every coefficient ends at 0 or 1. Before `start` there is no list and
     * reading its length throws.
     */
    method SetThrustersFromInput(thrustPower: real) returns (out: Outcome)
      modifies (set g | model != null && g in model.thrusters)`coeff
      ensures model == null ==> out == Fail("TypeError")
      ensures model != null ==> out == Pass
      ensures model != null ==> forall g :: g in model.thrusters ==> g.coeff == ForwardCoeff(thrustPower, g.angle)
    {
      if model == null {
        return Fail("TypeError");
      }
      var ts := model.thrusters;
      for i := 0 to |ts|
        invariant forall k :: 0 <= k < i ==> ts[k].coeff == ForwardCoeff(thrustPower, ts[k].angle)
      {
        var thruster := ts[i];
        thruster.coeff := if thrustPower != 0.0 && thruster.angle == 0.0 then 1.0 else 0.0;
      }
      return Pass;
    }
  }
}
