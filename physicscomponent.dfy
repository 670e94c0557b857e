/**
 * The `Physics` component as an object: its id in the simulation, the
 * dirty flag of its shape, and the bookkeeping that keeps the simulation's
 * collision events in step with the event names the component's emitter
 * has handlers for. The emitter itself is not modelled: `subscribe` and
 * `unsubscribe` are given the names that have handlers after the
 * emitter's own `on` / `off` ran.
 */
module PhysicsComponents {
  import opened Util
  import opened CollisionEvents
  import opened Physics
  import opened Simulations
  import opened CollisionManagers

  /**
   * The names `subscribe` hands to the simulation: none when the number of
   * names did not change, the sorted difference otherwise, and the diff's
   * throw when the emitter lost names.
   */
  function Added(before: seq<string>, after: seq<string>): (r: Result<seq<string>>)
    ensures r.Err? <==> |after| < |before|
    ensures r.Err? ==> r.msg == "Failed assertion: longer.length >= shorter.length"
  {
    if |before| == |after| then
      Ok([])
    else if |after| < |before| then
      Err("Failed assertion: longer.length >= shorter.length")
    else
      Ok(Unmatched(Sort(after), Sort(before), 0))
  }

  /** The names `unsubscribe` takes back: the same diff with the roles swapped. */
  function Removed(before: seq<string>, after: seq<string>): (r: Result<seq<string>>)
    ensures r.Err? <==> |before| < |after|
    ensures r.Err? ==> r.msg == "Failed assertion: longer.length >= shorter.length"
  {
    if |before| == |after| then
      Ok([])
    else if |before| < |after| then
      Err("Failed assertion: longer.length >= shorter.length")
    else
      Ok(Unmatched(Sort(before), Sort(after), 0))
  }

  /** A sub-multiset of the same size is the whole multiset. */
  lemma SameSizeSubMultiset(small: multiset<string>, big: multiset<string>)
    requires small <= big && |small| == |big|
    ensures big - small == multiset{}
  {
    assert (big - small) + small == big;
  }

  /**
   * When the emitter only gained names (as its `on` does), `subscribe`
   * hands over exactly the names that appeared, each as often as it
   * appeared.
   */
  lemma AddedIsDifference(before: seq<string>, after: seq<string>)
    requires multiset(before) <= multiset(after)
    ensures Added(before, after).Ok?
    ensures multiset(Added(before, after).value) == multiset(after) - multiset(before)
  {
    var mb, ma := multiset(before), multiset(after);
    assert |mb| == |before| && |ma| == |after|;
    assert |ma| == |ma - mb| + |mb| by {
      assert (ma - mb) + mb == ma;
    }
    if |before| == |after| {
      SameSizeSubMultiset(mb, ma);
      assert Added(before, after) == Ok([]);
    } else {
      SortedDiffIsAdded(after, before);
    }
  }

  /**
   * When the emitter only lost names (as its `off` does), `unsubscribe`
   * takes back exactly the names that disappeared.
   */
  lemma RemovedIsDifference(before: seq<string>, after: seq<string>)
    requires multiset(after) <= multiset(before)
    ensures Removed(before, after).Ok?
    ensures multiset(Removed(before, after).value) == multiset(before) - multiset(after)
  {
    var mb, ma := multiset(before), multiset(after);
    assert |mb| == |before| && |ma| == |after|;
    assert |mb| == |mb - ma| + |ma| by {
      assert (mb - ma) + ma == mb;
    }
    if |before| == |after| {
      SameSizeSubMultiset(ma, mb);
      assert Removed(before, after) == Ok([]);
    } else {
      SortedDiffIsAdded(before, after);
    }
  }

  /** The registering loop of `subscribe`: each name in turn, until one throws. */
  method RegisterNames(m: CollisionManager, id: nat, names: seq<string>) returns (out: Outcome)
    requires id in m.simulation.proxies
    modifies m.simulation.proxies[id]
    ensures var p := m.simulation.proxies[id];
      Registration(p.collisionEvents, out) == RegisterAll(old(p.collisionEvents), names)
  {
    var p := m.simulation.proxies[id];
    ghost var es := p.collisionEvents;
    var i := 0;
    out := Pass;
    while i < |names|
      invariant 0 <= i <= |names|
      invariant RegisterAll(es, names[..i]) == Registration(p.collisionEvents, out)
    {
      RegisterAllSnoc(es, names[..i], names[i]);
      assert names[..i + 1] == names[..i] + [names[i]];
      if out.Fail? {
        assert RegisterAll(es, names[..i + 1]) == RegisterAll(es, names[..i]);
        i := i + 1;
      } else {
        out := m.RegisterEvent(id, names[i]);
        i := i + 1;
      }
    }
    assert names[..i] == names;
  }

  /** The unregistering loop of `unsubscribe`: each name in turn. */
  method UnregisterNames(m: CollisionManager, id: nat, names: seq<string>)
    requires id in m.simulation.proxies
    modifies m.simulation.proxies[id]
    ensures var p := m.simulation.proxies[id];
      p.collisionEvents == UnregisterAll(old(p.collisionEvents), names)
  {
    var p := m.simulation.proxies[id];
    ghost var es := p.collisionEvents;
    var i := 0;
    while i < |names|
      invariant 0 <= i <= |names|
      invariant p.collisionEvents == UnregisterAll(es, names[..i])
    {
      UnregisterAllSnoc(es, names[..i], names[i]);
      assert names[..i + 1] == names[..i] + [names[i]];
      var _, _ := m.UnregisterEvent(id, names[i]);
      i := i + 1;
    }
    assert names[..i] == names;
  }

  /** The first handler of a component with none hands over exactly its name. */
  lemma AddedFirst(name: string)
    ensures Added([], [name]) == Ok([name])
  {
    assert [name][1..] == [];
    assert Sort([name]) == Insert(name, Sort([])) == [name];
    assert Unmatched([name], [], 0) == [name] + Unmatched([], [], 0) == [name];
  }

  class PhysicsComponent {
    /** What the simulation's proxies and collision reports know of this component. */
    const actor: Actor
    /** -1 until a simulation hands out an id. */
    var id: int
    var shapeDirty: bool
    /** The simulation, seen through its collision manager; `null` until one is set. */
    var manager: CollisionManager?
    /** The event names the component's emitter has handlers for. */
    var eventNames: seq<string>

    constructor (actor: Actor)
      ensures this.actor == actor && id == -1 && shapeDirty && manager == null && eventNames == []
    {
      this.actor := actor;
      id := -1;
      shapeDirty := true;
      manager := null;
      eventNames := [];
    }

    /** The proxy that holds this component's collision events, if there is one. */
    ghost function Proxy(): Option<ActorProxy>
      reads this, if manager != null then {manager.simulation} else {}
    {
      if manager != null && id >= 0 && id in manager.simulation.proxies
      then Some(manager.simulation.proxies[id]) else None
    }

    ghost function ProxyFrame(): set<object>
      reads this, if manager != null then {manager.simulation} else {}
    {
      if Proxy().Some? then {Proxy().value} else {}
    }

    /** `updateShape`: only marks the shape dirty. */
    method UpdateShape()
      modifies this`shapeDirty
      ensures shapeDirty
    {
      shapeDirty := true;
    }

    /** `setSimulation`: remembers the simulation and takes the id it hands out for this actor. */
    method SetSimulation(m: CollisionManager)
      requires m.simulation.Valid()
      modifies this`manager, this`id, m.simulation
      ensures manager == m && m.simulation.Valid()
      ensures id == old(m.simulation.nextId) && id !in old(m.simulation.proxies)
      ensures Proxy().Some? && fresh(Proxy().value)
      ensures Proxy().value.actor == actor && Proxy().value.collisionEvents == []
      ensures m.simulation.proxies == old(m.simulation.proxies)[id := Proxy().value]
    {
      manager := m;
      var newId := m.simulation.AddActor(actor);
      id := newId;
    }

    /**
     * `subscribe`: after the emitter's `on`, the names that appeared are
     * registered with the simulation in sorted order, stopping at the first
     * that throws. Nothing is registered when the number of names did not
     * change; a component with no simulation, or not yet added to it,
     * fails on the first name.
     */
    method Subscribe(after: seq<string>) returns (out: Outcome)
      modifies this`eventNames, ProxyFrame()
      ensures eventNames == after && manager == old(manager) && id == old(id)
      ensures manager != null ==> unchanged(manager.simulation)
      ensures Proxy() == old(Proxy())
      ensures match Added(old(eventNames), after)
        case Err(m) => out == Fail(m) && (Proxy().Some? ==> unchanged(Proxy().value))
        case Ok(names) =>
          if names == [] then out == Pass && (Proxy().Some? ==> unchanged(Proxy().value))
          else if Proxy().None? then out == Fail("TypeError")
          else
            var r := RegisterAll(old(Proxy().value.collisionEvents), names);
            out == r.out && Proxy().value.collisionEvents == r.events
    {
      var before := eventNames;
      eventNames := after;
      if |before| == |after| {
        return Pass;
      }
      var diff := SortedArrayDiff(Sort(after), Sort(before));
      if diff.Err? {
        return Fail(diff.msg);
      }
      var names := diff.value;
      if names == [] {
        return Pass;
      }
      if manager == null || id < 0 {
        return Fail("TypeError");
      }
      var m := manager;
      if id !in m.simulation.proxies {
        out := m.RegisterEvent(id, names[0]);
        return;
      }
      out := RegisterNames(m, id, names);
    }

    /**
     * `unsubscribe`: after the emitter's `off`, the names that disappeared
     * are unregistered from the simulation in sorted order (whether each
     * was registered is ignored). Nothing happens when the number of names
     * did not change.
     */
    method Unsubscribe(after: seq<string>) returns (out: Outcome)
      modifies this`eventNames, ProxyFrame()
      ensures eventNames == after && manager == old(manager) && id == old(id)
      ensures manager != null ==> unchanged(manager.simulation)
      ensures Proxy() == old(Proxy())
      ensures match Removed(old(eventNames), after)
        case Err(m) => out == Fail(m) && (Proxy().Some? ==> unchanged(Proxy().value))
        case Ok(names) =>
          if names == [] then out == Pass && (Proxy().Some? ==> unchanged(Proxy().value))
          else if Proxy().None? then out == Fail("TypeError")
          else out == Pass && Proxy().value.collisionEvents == UnregisterAll(old(Proxy().value.collisionEvents), names)
    {
      var before := eventNames;
      eventNames := after;
      if |before| == |after| {
        return Pass;
      }
      var diff := SortedArrayDiff(Sort(before), Sort(after));
      if diff.Err? {
        return Fail(diff.msg);
      }
      var names := diff.value;
      if names == [] {
        return Pass;
      }
      if manager == null || id < 0 {
        return Fail("TypeError");
      }
      var m := manager;
      if id !in m.simulation.proxies {
        var _, o := m.UnregisterEvent(id, names[0]);
        return o;
      }
      UnregisterNames(m, id, names);
      return Pass;
    }

    /**
     * `dispose`: drops every handler (so every name it had is unregistered)
     * and then removes the actor from the simulation.
     */
    method Dispose() returns (out: Outcome)
      requires manager != null ==> manager.simulation.Valid()
      modifies this`eventNames, ProxyFrame(), if manager != null then {manager.simulation} else {}
      ensures eventNames == []
      ensures manager == null ==> out == Fail("TypeError")
      ensures manager != null ==> manager.simulation.Valid()
      ensures manager != null && old(Proxy()).Some? && old(eventNames) != [] ==>
        out.Pass? && id !in manager.simulation.proxies
        && old(Proxy()).value.collisionEvents == UnregisterAll(old(Proxy().value.collisionEvents), Removed(old(eventNames), []).value)
      ensures manager != null && old(Proxy()).Some? && old(eventNames) == [] ==>
        out.Pass? && id !in manager.simulation.proxies && unchanged(old(Proxy()).value)
      ensures manager != null && old(Proxy()).None? ==> out == Fail("TypeError")
    {
      var u := Unsubscribe([]);
      if u.Fail? {
        return u;
      }
      if manager == null || id < 0 {
        return Fail("TypeError");
      }
      out := manager.simulation.RemoveActor(id);
    }
  }
}
