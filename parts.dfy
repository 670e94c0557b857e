/**
 * The pieces a vehicle is built from. An `Atom` is one block of the hull
 * (a w×h patch of the 24×24 grid with hit points); a `Gizmo` is a part that
 * owns atoms. Cores, thrusters and base thrusters are gizmos with their
 * own behaviour; they share one class here, told apart by `kind`.
 */
module Parts {
  import opened Util
  import Junkyards

  /** Which gizmo constructor built the object. */
  datatype GizmoKind = CoreKind | ThrusterKind | BaseThrusterKind

  /** A 2-vector of the local frame. */
  type Vec = (real, real)

  function Sub(a: Vec, b: Vec): Vec { (a.0 - b.0, a.1 - b.1) }

  /** The z component of the 2D cross product `p × f`. */
  function Cross(p: Vec, f: Vec): real { p.0 * f.1 - p.1 * f.0 }

  class Atom {
    var gizmo: Gizmo?
    const gfxID: int
    const i: int
    const j: int
    const w: int
    const h: int
    var maxHp: Hp
    var hp: Hp

    /** A new atom: unowned, full health, size and health from its atom data. */
    constructor (i: int, j: int, gfxID: int, w: int, h: int, hp: int)
      ensures gizmo == null
      ensures this.i == i && this.j == j && this.gfxID == gfxID && this.w == w && this.h == h
      ensures maxHp == Finite(hp) && this.hp == Finite(hp)
    {
      gizmo := null;
      this.gfxID := gfxID;
      this.i := i;
      this.j := j;
      this.w := w;
      this.h := h;
      maxHp := Finite(hp);
      this.hp := Finite(hp);
    }

    /** `setGizmo`: an atom gets its owner once; a second owner throws. */
    method SetGizmo(g: Gizmo) returns (out: Outcome)
      modifies this`gizmo
      ensures old(gizmo) != null ==> out == Fail("Gizmo is already set") && gizmo == old(gizmo)
      ensures old(gizmo) == null ==> out == Pass && gizmo == g
    {
      if gizmo != null {
        return Fail("Gizmo is already set");
      }
      gizmo := g;
      return Pass;
    }
  }

  /** How many of the atoms have hp above zero (the `reduce` in `isDead`). */
  function LiveCount(s: seq<Atom>): (n: nat)
    reads s
    ensures n <= |s|
  {
    if s == [] then 0
    else LiveCount(s[..|s| - 1]) + (if s[|s| - 1].hp.Positive() then 1 else 0)
  }

  /** No atom alive is the same as a live count of zero. */
  lemma {:induction false} LiveCountZero(s: seq<Atom>)
    ensures LiveCount(s) == 0 <==> forall a :: a in s ==> !a.hp.Positive()
  {
    if s != [] {
      var init := s[..|s| - 1];
      LiveCountZero(init);
      assert s == init + [s[|s| - 1]];
    }
  }

  class Gizmo {
    const kind: GizmoKind
    const modelName: string
    var gfxID: Option<string>
    /** Radians; 0 is forward. */
    const angle: real
    var key: int
    var isAttached: bool
    var atoms: seq<Atom>
    // Core: the catalog's maxHp, baseForce and baseTorque
    var maxHp: Option<int>
    var baseForce: Option<real>
    var baseTorque: Option<real>
    // Thruster
    var coeff: real
    var torque: real
    var localPos: Vec
    var localForce: Vec
    var force: Option<real>

    /**
     * A new gizmo of the given kind, from its instance's gfxID and the
     * catalog entry of its model name: detached, key -1, no atoms. A base
     * thruster is never drawn, so its gfxID is null.
     */
    constructor (kind: GizmoKind, modelName: string, typeData: Junkyards.GizmoData, gfxID: Option<string>, angle: real)
      ensures this.kind == kind && this.modelName == modelName && this.angle == angle
      ensures this.gfxID == if kind == BaseThrusterKind then None else if gfxID.Some? then gfxID else typeData.graphics
      ensures key == -1 && !isAttached && atoms == []
      ensures kind == CoreKind ==>
        maxHp == typeData.maxHp && baseForce == typeData.baseForce && baseTorque == typeData.baseTorque
      ensures kind != CoreKind ==> maxHp == None && baseForce == None && baseTorque == None
      ensures coeff == 0.0 && torque == 0.0 && localPos == (0.0, 0.0) && localForce == (0.0, 0.0)
      ensures force == if kind == CoreKind then None else typeData.force
    {
      this.kind := kind;
      this.modelName := modelName;
      this.angle := angle;
      this.gfxID := if kind == BaseThrusterKind then None else if gfxID.Some? then gfxID else typeData.graphics;
      key := -1;
      isAttached := false;
      atoms := [];
      if kind == CoreKind {
        maxHp := typeData.maxHp;
        baseForce := typeData.baseForce;
        baseTorque := typeData.baseTorque;
      } else {
        maxHp := None;
        baseForce := None;
        baseTorque := None;
      }
      coeff := 0.0;
      torque := 0.0;
      localPos := (0.0, 0.0);
      localForce := (0.0, 0.0);
      force := if kind == CoreKind then None else typeData.force;
    }

    /** `isBaseThruster`: set on the BaseThruster prototype only. */
    predicate IsBaseThruster()
    {
      kind == BaseThrusterKind
    }

    /**
     * `isDead`: cores and base thrusters never die; any other gizmo is dead
     * when no atom it owns has hp above zero.
     */
    predicate IsDead()
      reads this, atoms
    {
      kind == ThrusterKind && LiveCount(atoms) == 0
    }

    /**
     * `addAtom`: append the atom, then claim it. The append happens before
     * the claim can throw. A core then raises an atom whose maxHp is below
     * the core's to Infinity, and refills it.
     */
    method AddAtom(a: Atom) returns (out: Outcome)
      modifies this`atoms, a`gizmo, a`maxHp, a`hp
      ensures atoms == old(atoms) + [a]
      ensures old(a.gizmo) != null ==> out == Fail("Gizmo is already set") && a.gizmo == old(a.gizmo)
      ensures old(a.gizmo) == null ==> out == Pass && a.gizmo == this
      ensures var raise := out == Pass && kind == CoreKind && maxHp.Some? && old(a.maxHp).Below(maxHp.value);
        if raise then a.maxHp == Infinite && a.hp == Infinite
        else a.maxHp == old(a.maxHp) && a.hp == old(a.hp)
    {
      atoms := atoms + [a];
      out := a.SetGizmo(this);
      if out.Fail? {
        return;
      }
      if kind == CoreKind && maxHp.Some? && a.maxHp.Below(maxHp.value) {
        a.maxHp := Infinite;
        a.hp := a.maxHp;
      }
    }

    /**
     * `computeTorque`: the torque about `com` of this thruster's force,
     * stored and returned.
     */
    method ComputeTorque(com: Vec) returns (t: real)
      modifies this`torque
      ensures t == torque == Cross(Sub(localPos, com), localForce)
    {
      var pos := Sub(localPos, com);
      torque := pos.0 * localForce.1 - pos.1 * localForce.0;
      return torque;
    }
  }

  /** A thruster sitting on the centre of mass turns nothing. */
  lemma TorqueAtCentre(com: Vec, f: Vec)
    ensures Cross(Sub(com, com), f) == 0.0
  {
  }

  /** A force along the lever arm turns nothing: only the perpendicular part counts. */
  lemma ParallelForceNoTorque(k: real, f: Vec)
    ensures Cross((k * f.0, k * f.1), f) == 0.0
  {
    calc {
      Cross((k * f.0, k * f.1), f);
      k * f.0 * f.1 - k * f.1 * f.0;
      0.0;
    }
  }

  /** Torque is linear in the force: doubling it doubles the torque. */
  lemma TorqueScales(p: Vec, f: Vec, k: real)
    ensures Cross(p, (k * f.0, k * f.1)) == k * Cross(p, f)
  {
  }

  /** The catalog check a `Core` constructor makes on its base thruster force. */
  function CoreCheck(baseForce: Option<real>): (out: Outcome)
    ensures out == Pass <==> baseForce.Some? && baseForce.value != 0.0
  {
    if baseForce.None? then Fail("Vehicle data: Core does not specify base thruster force.")
    else if baseForce.value == 0.0 then Fail("Vehicle data: Core specifies base thruster force of 0.")
    else Pass
  }

  /** `new Core(...)`: a core gizmo, and whether its constructor threw. */
  method NewCore(modelName: string, typeData: Junkyards.GizmoData, gfxID: Option<string>, angle: real) returns (g: Gizmo, out: Outcome)
    ensures fresh(g) && g.kind == CoreKind && g.modelName == modelName && g.angle == angle
    ensures g.key == -1 && !g.isAttached && g.atoms == []
    ensures g.maxHp == typeData.maxHp && g.baseForce == typeData.baseForce && g.baseTorque == typeData.baseTorque
    ensures out == CoreCheck(typeData.baseForce)
  {
    g := new Gizmo(CoreKind, modelName, typeData, gfxID, angle);
    if g.baseForce.None? {
      return g, Fail("Vehicle data: Core does not specify base thruster force.");
    }
    if g.baseForce.value == 0.0 {
      return g, Fail("Vehicle data: Core specifies base thruster force of 0.");
    }
    return g, Pass;
  }

  /** Math.PI, as the literal JavaScript prints for it. */
  const Pi: real := 3.141592653589793

  /** The catalog entry base thrusters are built from. */
  const BaseThrusterName: string := "base-thruster"
  const BaseThrusterData: Junkyards.GizmoData := Junkyards.GizmoData("thruster", None, Some(2.0), None, None, None)

  /** Module load of the base thruster: register its catalog entry (first registration wins). */
  method RegisterBaseThruster(jy: Junkyards.Junkyard)
    modifies jy
    ensures jy.lookup == Junkyards.Added(old(jy.lookup), BaseThrusterName, BaseThrusterData)
    ensures BaseThrusterName !in old(jy.lookup) ==> jy.lookup[BaseThrusterName].force == Some(2.0)
  {
    jy.AddGizmo(BaseThrusterName, BaseThrusterData);
  }
}
