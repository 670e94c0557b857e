/**
 * The vehicle's physics component: the collision event it subscribes to,
 * the handler that turns the strongest contact of a collision into
 * radial damage on the vehicle, and the choice of thrusters that push.
 *
 * The square root, the world-to-cell conversion of the query point and
 * the Gaussian fall-off are parameters; the forces themselves go to the
 * physics library, so `applyThrusterForces` is modelled by which
 * thrusters it drives and with what coefficient.
 */
module VehiclePhysics {
  import opened Util
  import opened CollisionEvents
  import Physics
  import opened Contacts
  import opened CollisionManagers
  import opened Parts
  import opened CellRects
  import opened DamageCalculators
  import Vehicles
  import opened VehicleEvents
  import opened Simulations
  import opened PhysicsComponents

  /** `VehicleModel.CELL_SIZE`. */
  const CELL_SIZE: real := 0.2
  const IMPULSE_DAMAGE_THRESHOLD: real := 1.0

  /** The damage event as `createFromName` makes it. */
  const DAMAGE_COLLISION_EVENT: CollisionEvent := CollisionEvent(DAMAGE_EVENT, {Begin},
    {PointAverageWorld, NormalWorldA, ImpulseNormalAverage}, {PointAverageWorld, NormalWorldB, ImpulseNormalAverage})

  /** The names the emitter has handlers for once a handler for `name` is added. */
  function WithHandler(names: seq<string>, name: string): (r: seq<string>)
    ensures name in r && multiset(names) <= multiset(r)
    ensures forall n :: n in r ==> n in names || n == name
  {
    if name in names then names else names + [name]
  }

  /**
   * The vehicle's `setSimulation`: the base `setSimulation`, then the
   * damage handler subscribes to the damage event. A component with no
   * other handlers ends with exactly the damage event registered on its
   * new proxy.
   */
  method SetSimulation(c: PhysicsComponent, m: CollisionManager) returns (out: Outcome)
    requires m.simulation.Valid()
    modifies c, m.simulation
    ensures c.manager == m && m.simulation.Valid()
    ensures c.id == old(m.simulation.nextId) && c.Proxy().Some? && c.Proxy().value.actor == c.actor
    ensures c.eventNames == WithHandler(old(c.eventNames), DAMAGE_EVENT)
    ensures old(c.eventNames) == [] ==> out == Pass && c.Proxy().value.collisionEvents == [DAMAGE_COLLISION_EVENT]
  {
    DamageEventParses();
    out := AttachHandler(c, m, DAMAGE_EVENT);
  }

  /** `setSimulation` for any one handler name: add the actor, then subscribe with the handler added. */
  method AttachHandler(c: PhysicsComponent, m: CollisionManager, name: string) returns (out: Outcome)
    requires m.simulation.Valid()
    modifies c, m.simulation
    ensures c.manager == m && m.simulation.Valid()
    ensures c.id == old(m.simulation.nextId) && c.Proxy().Some? && c.Proxy().value.actor == c.actor
    ensures c.eventNames == WithHandler(old(c.eventNames), name)
    ensures old(c.eventNames) == [] && CreateFromName(name).Created? ==>
      out == Pass && c.Proxy().value.collisionEvents == [CreateFromName(name).event]
  {
    var before := c.eventNames;
    var after := WithHandler(before, name);
    c.SetSimulation(m);
    ghost var p := c.Proxy().value;
    out := c.Subscribe(after);
    assert c.Proxy() == Some(p);
    if before == [] && CreateFromName(name).Created? {
      assert after == [name];
      AddedFirst(name);
      RegisterOne(name, CreateFromName(name).event);
    }
  }

  // ---------------------------------------------------------------------
  // The strongest contact.
  // ---------------------------------------------------------------------

  /** `i` is the first index holding the largest average normal impulse. */
  predicate FirstStrongest(cs: seq<ContactReport>, i: nat)
  {
    i < |cs|
    && (forall j :: 0 <= j < |cs| ==> cs[j].averageNormalImpulse <= cs[i].averageNormalImpulse)
    && (forall j :: 0 <= j < i ==> cs[j].averageNormalImpulse < cs[i].averageNormalImpulse)
  }

  /** There is only one first strongest contact. */
  lemma FirstStrongestUnique(cs: seq<ContactReport>, i: nat, k: nat)
    requires FirstStrongest(cs, i) && FirstStrongest(cs, k)
    ensures i == k
  {
    assert cs[k].averageNormalImpulse <= cs[i].averageNormalImpulse;
    assert cs[i].averageNormalImpulse <= cs[k].averageNormalImpulse;
  }

  /**
   * The selection loop of the handler: starting from contact 0, a later
   * contact replaces the current one only when its impulse is strictly
   * larger. With no contacts there is nothing to select.
   */
  method Strongest(cs: seq<ContactReport>) returns (r: Option<nat>)
    ensures r.None? <==> cs == []
    ensures r.Some? ==> FirstStrongest(cs, r.value)
  {
    if cs == [] {
      return None;
    }
    var best := 0;
    for i := 1 to |cs|
      invariant FirstStrongest(cs[..i], best)
    {
      if cs[i].averageNormalImpulse > cs[best].averageNormalImpulse {
        best := i;
      }
    }
    assert cs[..|cs|] == cs;
    return Some(best);
  }

  // ---------------------------------------------------------------------
  // The damage handler.
  // ---------------------------------------------------------------------

  /** What the handler makes of a report. */
  datatype Verdict =
    | ScrapIgnored
    | NoContact
    | TooWeak(contact: nat)
    | Damaging(contact: nat, damage: real)

  /**
   * The handler's gating: reports from scrap are ignored; a report with no
   * contacts fails reading the missing first contact; a strongest impulse
   * below the threshold does nothing; otherwise that impulse is the damage.
   */
  predicate Judged(report: CollisionReport, v: Verdict)
  {
    var cs := report.contacts;
    if Physics.Scrap in report.other.category then v == ScrapIgnored
    else if cs == [] then v == NoContact
    else
      (v.TooWeak? || v.Damaging?) && FirstStrongest(cs, v.contact)
      && var d := cs[v.contact].averageNormalImpulse;
      (v.Damaging? <==> d >= IMPULSE_DAMAGE_THRESHOLD) && (v.Damaging? ==> v.damage == d)
  }

  /** The query point: a half cell back along the normal from the average world point. */
  function QueryPoint(c: ContactReport): Vec2
  {
    var back := Scale(c.worldNormal, CELL_SIZE / 2.0);
    (c.averageWorldPoint.0 - back.0, c.averageWorldPoint.1 - back.1)
  }

  /**
   * The gating half of the handler: the verdict on a report, with the
   * strongest contact when there is one.
   */
  method Judge(report: CollisionReport) returns (v: Verdict)
    ensures Judged(report, v)
  {
    if Physics.Scrap in report.other.category {
      return ScrapIgnored;
    }
    var best := Strongest(report.contacts);
    if best.None? {
      return NoContact;
    }
    var d := report.contacts[best.value].averageNormalImpulse;
    if d < IMPULSE_DAMAGE_THRESHOLD {
      return TooWeak(best.value);
    }
    return Damaging(best.value, d);
  }

  /** Every atom a calculation harvests is one of the atoms the live cells hold, with a non-zero damage. */
  lemma HarvestedAtoms(ps: seq<(int, int)>, alive: map<int, Atom>, hs: seq<Hit>,
                       falloff: (real, real) -> real, x: real, y: real, atoms: seq<Atom>)
    requires forall c :: c in alive ==> alive[c] in atoms
    ensures var r := Harvest(ps, alive, hs, falloff, x, y);
      forall k :: 0 <= k < |r.0| ==> r.0[k] in atoms && r.1[k] != 0
  {
    var r := Harvest(ps, alive, hs, falloff, x, y);
    forall k | 0 <= k < |r.0|
      ensures r.0[k] in atoms && r.1[k] != 0
    {
      HarvestPairs(ps, alive, hs, falloff, x, y, k);
    }
  }

  /**
   * The module-level state of `_handleCollisionDamage`: one radial policy
   * and a calculator that runs only it.
   */
  class CollisionDamage {
    const policy: RadialPolicy
    const calculator: DamageCalculator

    ghost predicate Valid()
      reads calculator, calculator.buffer.master, calculator.buffer.live
    {
      calculator.policies == [policy] && calculator.Valid()
    }

    constructor ()
      ensures Valid() && fresh(policy) && fresh(calculator) && fresh(calculator.buffer.master) && fresh(calculator.buffer.live)
    {
      var p := new RadialPolicy();
      var c := new DamageCalculator();
      c.AddPolicy(p);
      policy := p;
      calculator := c;
    }

    /**
     * `_handleCollisionDamage`: a damaging verdict sets the policy's radius
     * to half the square root of the damage, runs the calculator at the
     * query point and hands what it found, unchanged, to `receiveHit`. Any
     * other verdict changes nothing; no contact is a TypeError.
     */
    method Handle(model: Vehicles.VehicleModel, report: CollisionReport, sqrt: real -> real,
                  toCell: Vec2 -> (real, real), falloff: (real, real) -> real, com: Vec2)
      returns (v: Verdict, out: Outcome, hits: seq<Atom>, damages: seq<int>, scrap: seq<Atom>, ghost steps: seq<Vehicles.Step>)
      requires Valid() && model.Valid() && (model.isAlive ==> model.core != null)
      modifies policy, calculator, calculator.buffer.master, calculator.buffer.live
      modifies model`cellCount, model`log, model`thrusters, model`gizmos, model.atoms`hp, model.gizmos`isAttached
      modifies model.thrusters`torque
      ensures Valid() && model.Valid()
      ensures Judged(report, v)
      ensures out.Fail? <==> v.NoContact?
      ensures out.Fail? ==> out.msg == "TypeError"
      ensures !v.Damaging? ==>
        hits == [] && damages == [] && scrap == [] && unchanged(policy)
        && model.cellCount == old(model.cellCount) && model.log == old(model.log)
        && forall a :: a in model.atoms ==> a.hp == old(a.hp)
      ensures v.Damaging? ==>
        var q := toCell(QueryPoint(report.contacts[v.contact]));
        policy.radius == Settle(sqrt(v.damage) * 0.5, v.damage)
        && policy.rect == RadialRect(q.0, q.1, policy.radius)
        && |hits| == |damages|
        && (forall k :: 0 <= k < |hits| ==> hits[k] in model.atoms && damages[k] != 0)
        && scrap == Vehicles.StepAtoms(steps)
        && model.cellCount == old(model.cellCount) - Vehicles.SharedLoss([], [], steps)
    {
      hits, damages, scrap, steps := [], [], [], [];
      v := Judge(report);
      if v.ScrapIgnored? || v.TooWeak? {
        return v, Pass, hits, damages, scrap, steps;
      }
      if v.NoContact? {
        return v, Fail("TypeError"), hits, damages, scrap, steps;
      }
      var q := toCell(QueryPoint(report.contacts[v.contact]));
      hits, damages, scrap, steps := Strike(model, q.0, q.1, v.damage, sqrt(v.damage) * 0.5, falloff, com);
      out := Pass;
    }

    /**
     * A damaging hit: the calculator runs with the given radius, and what
     * it finds goes unchanged to `receiveHit`.
     */
    method Strike(model: Vehicles.VehicleModel, x: real, y: real, damage: real, radius: real, falloff: (real, real) -> real,
                  com: Vec2)
      returns (hits: seq<Atom>, damages: seq<int>, scrap: seq<Atom>, ghost steps: seq<Vehicles.Step>)
      requires Valid() && model.Valid() && (model.isAlive ==> model.core != null)
      modifies policy, calculator, calculator.buffer.master, calculator.buffer.live
      modifies model`cellCount, model`log, model`thrusters, model`gizmos, model.atoms`hp, model.gizmos`isAttached
      modifies model.thrusters`torque
      ensures Valid() && model.Valid()
      ensures policy.radius == Settle(radius, damage) && policy.rect == RadialRect(x, y, policy.radius)
      ensures |hits| == |damages| && forall k :: 0 <= k < |hits| ==> hits[k] in model.atoms && damages[k] != 0
      ensures scrap == Vehicles.StepAtoms(steps) && Vehicles.WellFormed(steps)
      ensures model.cellCount == old(model.cellCount) - Vehicles.SharedLoss([], [], steps)
    {
      hits, damages := Calculate(model, x, y, damage, radius, falloff);
      scrap, steps := model.ReceiveHit(hits, damages, com);
    }

    /**
     * The calculation half of a damaging hit: the policy's radius is set,
     * and the calculator runs at the query point; every atom it finds is
     * one of the vehicle's, with a non-zero damage.
     */
    method Calculate(model: Vehicles.VehicleModel, x: real, y: real, damage: real, radius: real, falloff: (real, real) -> real)
      returns (hits: seq<Atom>, damages: seq<int>)
      requires Valid() && model.Valid()
      modifies policy, calculator, calculator.buffer.master, calculator.buffer.live
      ensures Valid()
      ensures policy.radius == Settle(radius, damage) && policy.rect == RadialRect(x, y, policy.radius)
      ensures (hits, damages) == Harvest(RectVisits(calculator.rect), LiveCells(model), [policy.AsHit(damage)], falloff, x, y)
      ensures |hits| == |damages| && forall k :: 0 <= k < |hits| ==> hits[k] in model.atoms && damages[k] != 0
    {
      policy.SetRadius(radius);
      ghost var alive := LiveCells(model);
      var o;
      hits, damages, o := calculator.Execute(model, x, y, damage, falloff);
      assert o == Pass && LiveCells(model) == alive;
      assert HitsOf(calculator.policies, damage) == [policy.AsHit(damage)];
      ghost var visits, hs := RectVisits(calculator.rect), [policy.AsHit(damage)];
      assert (hits, damages) == Harvest(visits, alive, hs, falloff, x, y);
      HarvestedAtoms(visits, alive, hs, falloff, x, y, model.atoms);
    }
  }

  // ---------------------------------------------------------------------
  // `applyThrusterForces`
  // ---------------------------------------------------------------------

  /** The thrusters that push, in list order, each with its coefficient. */
  function Driven(ts: seq<Gizmo>): (r: seq<(Gizmo, real)>)
    reads set t | t in ts
  {
    if ts == [] then []
    else
      var t := ts[|ts| - 1];
      Driven(ts[..|ts| - 1]) + (if t.isAttached && t.coeff > 0.0 then [(t, t.coeff)] else [])
  }

  /** A thruster pushes exactly when it is attached and its coefficient is positive. */
  lemma {:induction false} DrivenMembers(ts: seq<Gizmo>)
    ensures forall p :: p in Driven(ts) <==> p.0 in ts && p.0.isAttached && p.0.coeff > 0.0 && p.1 == p.0.coeff
  {
    if ts != [] {
      DrivenMembers(ts[..|ts| - 1]);
      forall p: (Gizmo, real) | p.0 in ts
        ensures p.0 in ts[..|ts| - 1] || p.0 == ts[|ts| - 1]
      {
        var k :| 0 <= k < |ts| && ts[k] == p.0;
        if k < |ts| - 1 {
          assert ts[..|ts| - 1][k] == p.0;
        }
      }
    }
  }

  /**
   * `applyThrusterForces`: every thruster is visited in order, and the
   * forces applied are those of the driven thrusters, each scaled by its
   * coefficient.
   */
  method ApplyThrusterForces(ts: seq<Gizmo>) returns (applied: seq<(Gizmo, real)>)
    ensures applied == Driven(ts)
  {
    applied := [];
    for i := 0 to |ts|
      invariant applied == Driven(ts[..i])
    {
      assert ts[..i + 1][..i] == ts[..i];
      var t := ts[i];
      if t.isAttached && t.coeff > 0.0 {
        applied := applied + [(t, t.coeff)];
      }
    }
    assert ts[..|ts|] == ts;
  }
}
