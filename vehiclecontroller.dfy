/**
 * The vehicle controller: the guards around spawning, killing, loading and
 * unloading a vehicle model. Each of the two deferreds is modelled by
 * whether it has resolved. A spawn callback registered on the load deferred
 * waits while that deferred is unresolved (`pendingSpawns`) and is scheduled
 * once it resolves (`readySpawns`); scheduled callbacks run later, in
 * `RunCallbacks`, as promise callbacks do. A thrown `Error` becomes a `Fail`
 * outcome with its message.
 */
module VehicleControllers {
  import opened Util
  import opened VehicleGrid
  import Junkyards
  import Parts
  import opened Vehicles

  /** `n` copies of one event. */
  function Repeat(e: Event, n: nat): (r: seq<Event>)
    ensures |r| == n && forall k :: 0 <= k < n ==> r[k] == e
  {
    if n == 0 then [] else Repeat(e, n - 1) + [e]
  }

  function SpawnedMsg(id: string): string
  {
    "Cannot spawn vehicle " + id + ": Vehicle is already spawned."
  }

  function DeadMsg(id: string): string
  {
    "Cannot kill vehicle " + id + ": Vehicle is already dead."
  }

  function NotLoadedMsg(id: string): string
  {
    "Cannot unload vehicle " + id + " data: Vehicle is not loaded."
  }

  function StillSpawnedMsg(id: string): string
  {
    "Cannot unload vehicle " + id + " data: Vehicle is still spawned."
  }

  function LoadedMsg(id: string): string
  {
    "Cannot load vehicle " + id + " data: Vehicle already has data loaded."
  }

  class VehicleController {
    /** The entity's model, taken in `start`. */
    const model: VehicleModel
    /** The entity id that the error messages name. */
    const id: string
    /** Whether `_postLoadDefer` has resolved. */
    var loadResolved: bool
    /** Spawn callbacks waiting on an unresolved `_postLoadDefer`. */
    var pendingSpawns: nat
    /** Spawn callbacks whose deferred has resolved, not yet run. */
    var readySpawns: nat
    /** Whether `_postSpawnDefer` has resolved. */
    var spawnResolved: bool
    var isDisposed: bool

    /**
     * The load deferred has resolved exactly when the model is loaded,
     * callbacks wait only on an unresolved load, and the spawn deferred has
     * resolved only while the vehicle is alive.
     */
    ghost predicate Valid()
      reads this`loadResolved, this`pendingSpawns, this`spawnResolved
      reads model`cells, model`atoms, model`gizmos, model`core, model`isLoaded, model`isAlive
      reads model.atoms`gizmo, model.gizmos`atoms, model.gizmos`baseForce
    {
      model.Valid()
      && (loadResolved <==> model.isLoaded)
      && (pendingSpawns > 0 ==> !loadResolved)
      && (spawnResolved ==> model.isAlive)
    }

    /** A controller started on an empty model; both deferreds are new. */
    constructor (model: VehicleModel, id: string)
      requires model.Valid() && !model.isLoaded && !model.isAlive
      ensures Valid()
      ensures this.model == model && this.id == id
      ensures !loadResolved && pendingSpawns == 0 && readySpawns == 0 && !spawnResolved && !isDisposed
    {
      this.model := model;
      this.id := id;
      loadResolved := false;
      pendingSpawns := 0;
      readySpawns := 0;
      spawnResolved := false;
      isDisposed := false;
    }

    function IsLoaded(): (r: bool)
      reads model`isLoaded
      ensures r == model.isLoaded
    {
      model.isLoaded
    }

    function IsAlive(): (r: bool)
      reads model`isAlive
      ensures r == model.isAlive
    {
      model.isAlive
    }

    /**
     * `spawn`: refused while alive. Otherwise a callback that spawns the
     * model is registered on the load deferred: scheduled when that has
     * resolved, left waiting when not. Nothing else changes.
     */
    method Spawn() returns (out: Outcome)
      requires Valid()
      modifies this`pendingSpawns, this`readySpawns
      ensures Valid()
      ensures out == Pass <==> !model.isAlive
      ensures out != Pass ==> out == Fail(SpawnedMsg(id)) && unchanged(this)
      ensures out == Pass && loadResolved ==> readySpawns == old(readySpawns) + 1 && pendingSpawns == old(pendingSpawns)
      ensures out == Pass && !loadResolved ==> pendingSpawns == old(pendingSpawns) + 1 && readySpawns == old(readySpawns)
    {
      if model.isAlive {
        return Fail(SpawnedMsg(id));
      }
      out := Pass;
      if loadResolved {
        readySpawns := readySpawns + 1;
      } else {
        pendingSpawns := pendingSpawns + 1;
      }
    }

    /**
     * The scheduled spawn callbacks run, in turn: each spawns the model and
     * resolves the spawn deferred.
     */
    method RunCallbacks(com: Parts.Vec)
      requires Valid()
      modifies this`readySpawns, this`spawnResolved
      modifies model`cellCount, model`isAlive, model`log, model.atoms`hp, model.gizmos`isAttached, model.thrusters`torque
      ensures Valid()
      ensures readySpawns == 0
      ensures model.log == old(model.log) + Repeat(Spawned, old(readySpawns))
      ensures old(readySpawns) == 0 ==>
        (spawnResolved == old(spawnResolved) && unchanged(model) && unchanged(model.atoms) && unchanged(model.gizmos)
         && unchanged(model.thrusters))
      ensures old(readySpawns) > 0 ==>
        spawnResolved && model.isAlive
        && (forall a :: a in model.atoms ==> a.hp == a.maxHp)
        && (forall g :: g in model.gizmos ==> g.isAttached)
    {
      if readySpawns > 0 {
        SpawnRepeatedly(model, readySpawns, com);
        spawnResolved := true;
      }
      readySpawns := 0;
    }

    /**
     * `kill`: refused while dead. Otherwise the model explodes (with scrap
     * when asked) or is killed, and the spawn deferred is replaced by a new
     * one.
     */
    method Kill(explode: bool, spawnScrap: bool) returns (out: Outcome)
      requires Valid()
      modifies this`spawnResolved
      modifies model`isAlive, model`log, model.atoms`hp, model.gizmos`isAttached
      ensures Valid()
      ensures out == Pass <==> old(model.isAlive)
      ensures out != Pass ==> out == Fail(DeadMsg(id)) && unchanged(this) && unchanged(model)
      ensures out == Pass ==> !model.isAlive && !spawnResolved
      ensures out == Pass && !(explode && spawnScrap) ==>
        model.log == old(model.log) + [Killed] && unchanged(model.atoms) && unchanged(model.gizmos)
      ensures out == Pass && explode && spawnScrap ==>
        model.log == old(model.log) + [Killed, ScrapSpawn(LiveOf(model.atoms, old(HpsOf(model.atoms))))]
        && (forall k :: 0 <= k < |model.atoms| ==> model.atoms[k].hp == Zeroed(old(model.atoms[k].hp)))
        && (forall g :: g in model.gizmos ==> !g.isAttached)
    {
      if !model.isAlive {
        return Fail(DeadMsg(id));
      }
      if explode {
        var remaining, detached := model.Explode(spawnScrap);
      } else {
        model.Kill();
      }
      assert model.Valid();
      spawnResolved := false;
      out := Pass;
    }

    /**
     * `unload`: refused when not loaded and when still alive, in that
     * order. Otherwise the model's data is cleared and the load deferred is
     * replaced by a new one, so that a later spawn waits for the next load.
     */
    method Unload() returns (out: Outcome)
      requires Valid()
      modifies this`loadResolved
      modifies model`atoms, model`cells, model`gizmos, model`thrusters, model`core, model`cellCount, model`isLoaded
      ensures Valid()
      ensures out == Pass <==> old(model.isLoaded) && !old(model.isAlive)
      ensures !old(model.isLoaded) ==> out == Fail(NotLoadedMsg(id))
      ensures old(model.isLoaded) && old(model.isAlive) ==> out == Fail(StillSpawnedMsg(id))
      ensures out != Pass ==> unchanged(this) && unchanged(model)
      ensures out == Pass ==>
        !loadResolved && !model.isLoaded && model.atoms == [] && model.gizmos == [] && model.core == null
        && model.cellCount == 0
    {
      if !model.isLoaded {
        return Fail(NotLoadedMsg(id));
      }
      if model.isAlive {
        return Fail(StillSpawnedMsg(id));
      }
      model.ClearData();
      loadResolved := false;
      out := Pass;
    }

    /**
     * `load`: refused when data is loaded. Otherwise the model loads; a
     * failed load leaves the load deferred unresolved, and a successful one
     * resolves it, which schedules every waiting spawn callback.
     */
    method Load(ids: seq<int>, table: map<int, AtomData>,
                instances: seq<InstanceData>, catalog: map<string, Junkyards.GizmoData>, com: Parts.Vec)
      returns (out: Outcome)
      requires Valid()
      modifies this`loadResolved, this`pendingSpawns, this`readySpawns
      modifies model`atoms, model`cells, model`gizmos, model`thrusters, model`core, model`cellCount
      modifies model`isLoaded, model`log, model.thrusters`torque
      modifies model.atoms`gizmo, model.atoms`maxHp, model.atoms`hp
      ensures Valid()
      ensures old(model.isLoaded) ==> out == Fail(LoadedMsg(id)) && unchanged(this) && unchanged(model)
      ensures out == Pass ==> !old(model.isLoaded)
      ensures !old(model.isLoaded) && out != Pass ==>
        !loadResolved && !model.isLoaded && pendingSpawns == old(pendingSpawns) && readySpawns == old(readySpawns)
      ensures out == Pass ==>
        loadResolved && model.isLoaded && model.log == old(model.log) + [AtomsLoad, GizmosLoad]
        && pendingSpawns == 0 && readySpawns == old(readySpawns) + old(pendingSpawns)
      ensures out == Pass ==> forall p :: p in Placed(ids) ==> p.1 in table
    {
      if model.isLoaded {
        return Fail(LoadedMsg(id));
      }
      out := model.LoadFromData(ids, table, instances, catalog, com);
      if out != Pass {
        return;
      }
      loadResolved := true;
      readySpawns := readySpawns + pendingSpawns;
      pendingSpawns := 0;
    }

    /** `dispose`: mark the controller disposed. */
    method Dispose()
      modifies this`isDisposed
      ensures isDisposed
    {
      isDisposed := true;
    }
  }

  /** The model spawned `n` times over, as `n` spawn callbacks do. */
  method SpawnRepeatedly(m: VehicleModel, n: nat, com: Parts.Vec)
    requires m.Valid() && n > 0
    modifies m`cellCount, m`isAlive, m`log, m.atoms`hp, m.gizmos`isAttached, m.thrusters`torque
    ensures m.log == old(m.log) + Repeat(Spawned, n) && m.isAlive
    ensures forall a :: a in m.atoms ==> a.hp == a.maxHp
    ensures forall g :: g in m.gizmos ==> g.isAttached
  {
    m.Spawn(com);
    for k := 1 to n
      invariant m.log == old(m.log) + Repeat(Spawned, k) && m.isAlive
      invariant forall a :: a in m.atoms ==> a.hp == a.maxHp
      invariant forall g :: g in m.gizmos ==> g.isAttached
    {
      m.Spawn(com);
    }
  }

  /**
   * Unloading and then asking for a spawn leaves the spawn waiting on the
   * new load deferred: nothing is scheduled until the next load.
   */
  method UnloadThenSpawn(c: VehicleController) returns (unloaded: Outcome, spawned: Outcome)
    requires c.Valid() && c.model.isLoaded && !c.model.isAlive
    modifies c`loadResolved, c`pendingSpawns, c`readySpawns
    modifies c.model`atoms, c.model`cells, c.model`gizmos, c.model`thrusters, c.model`core
    modifies c.model`cellCount, c.model`isLoaded
    ensures c.Valid()
    ensures unloaded == Pass && spawned == Pass
    ensures !c.model.isLoaded && !c.loadResolved
    ensures c.pendingSpawns == old(c.pendingSpawns) + 1 && c.readySpawns == old(c.readySpawns)
  {
    unloaded := c.Unload();
    spawned := c.Spawn();
  }
}
