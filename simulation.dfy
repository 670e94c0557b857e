/**
 * The simulation's bookkeeping of actors: every physics component added to
 * the world gets the next id and an `ActorProxy` that holds its collision
 * events. Bodies, fixtures and stepping belong to the physics library and
 * are not modelled.
 */
module Simulations {
  import opened Util
  import opened CollisionEvents
  import opened Physics

  /** The first index holding exactly `e` (`Array.prototype.indexOf`, -1 as `None`). */
  function IndexOf(es: seq<CollisionEvent>, e: CollisionEvent): (r: Option<nat>)
    ensures r.Some? ==> r.value < |es| && es[r.value] == e && e !in es[..r.value]
    ensures r.None? <==> e !in es
  {
    if es == [] then None
    else if es[0] == e then Some(0)
    else match IndexOf(es[1..], e)
      case None => None
      case Some(i) =>
        assert es[..i + 1] == [es[0]] + es[1..][..i];
        Some(i + 1)
  }

  /** `ActorProxy`: the simulation's record of one actor and the collision events registered for it. */
  class ActorProxy {
    const id: nat
    const actor: Actor
    var collisionEvents: seq<CollisionEvent>

    constructor (id: nat, actor: Actor)
      ensures this.id == id && this.actor == actor && collisionEvents == []
    {
      this.id := id;
      this.actor := actor;
      collisionEvents := [];
    }

    /** `addEvent`: appends. */
    method AddEvent(event: CollisionEvent)
      modifies this`collisionEvents
      ensures collisionEvents == old(collisionEvents) + [event]
    {
      collisionEvents := collisionEvents + [event];
    }

    /**
     * `removeEvent`: removes the first occurrence and answers true, or
     * answers false and leaves the list alone.
     */
    method RemoveEvent(event: CollisionEvent) returns (removed: bool)
      modifies this`collisionEvents
      ensures removed <==> event in old(collisionEvents)
      ensures !removed ==> collisionEvents == old(collisionEvents)
      ensures removed ==>
        var i := IndexOf(old(collisionEvents), event).value;
        collisionEvents == old(collisionEvents)[..i] + old(collisionEvents)[i + 1..]
      ensures multiset(collisionEvents) == multiset(old(collisionEvents)) - multiset{event}
    {
      match IndexOf(collisionEvents, event)
      case None =>
        removed := false;
      case Some(i) =>
        assert collisionEvents == collisionEvents[..i] + [event] + collisionEvents[i + 1..];
        collisionEvents := collisionEvents[..i] + collisionEvents[i + 1..];
        removed := true;
    }

    /** `findEventByName`: the first event with that name, or `null`. */
    method FindEventByName(eventName: string) returns (r: Option<CollisionEvent>)
      ensures r.Some? <==> exists e :: e in collisionEvents && e.name == eventName
      ensures r.Some? ==> r.value.name == eventName && r.value == collisionEvents[FirstNamed(collisionEvents, eventName).value]
    {
      var i := 0;
      while i < |collisionEvents|
        invariant 0 <= i <= |collisionEvents|
        invariant forall k :: 0 <= k < i ==> collisionEvents[k].name != eventName
      {
        if collisionEvents[i].name == eventName {
          return Some(collisionEvents[i]);
        }
        i := i + 1;
      }
      return None;
    }
  }

  /** The actor-bookkeeping part of `Simulation`. */
  class Simulation {
    var nextId: nat
    var proxies: map<nat, ActorProxy>

    /** Every proxy sits under its own id, and every id handed out is below `nextId`. */
    ghost predicate Valid()
      reads this
    {
      forall k :: k in proxies ==> k < nextId && proxies[k].id == k
    }

    constructor ()
      ensures nextId == 0 && proxies == map[] && Valid()
    {
      nextId := 0;
      proxies := map[];
    }

    /**
     * `addActor`: the actor gets the next id, and a new proxy with no
     * events is stored under it.
     */
    method AddActor(actor: Actor) returns (id: nat)
      requires Valid()
      modifies this
      ensures Valid()
      ensures id == old(nextId) && nextId == old(nextId) + 1
      ensures id !in old(proxies) && id in proxies && proxies == old(proxies)[id := proxies[id]]
      ensures fresh(proxies[id]) && proxies[id].actor == actor && proxies[id].collisionEvents == []
    {
      id := nextId;
      nextId := nextId + 1;
      var proxy := new ActorProxy(id, actor);
      proxies := proxies[id := proxy];
    }

    /**
     * `removeActor`: the proxy is deleted from the map; an id with no proxy
     * fails on reading the missing proxy's body, after the (no-op) delete.
     */
    method RemoveActor(id: nat) returns (out: Outcome)
      requires Valid()
      modifies this`proxies
      ensures Valid()
      ensures out.Pass? <==> id in old(proxies)
      ensures out.Fail? ==> out.msg == "TypeError"
      ensures proxies == old(proxies) - {id}
    {
      var wasThere := id in proxies;
      proxies := proxies - {id};
      if !wasThere {
        return Fail("TypeError");
      }
      return Pass;
    }
  }
}
