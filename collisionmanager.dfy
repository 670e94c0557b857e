/**
 * The collision manager: one `CollisionInfo` record per pair of actors that
 * touched during a physics step, keyed by the pair with the smaller id
 * first; the contact listener fills the records while the step runs; after
 * the step every record whose condition matches some registered event
 * publishes its report to that event's actor, and then every record is
 * cleared and returned to its pool.
 *
 * Records, reports and contact records are recycled through free lists.
 * Cleared records and reports are indistinguishable from new ones, so
 * those pools are counts; contact records keep stale values, so their pool
 * is a list of values. The order of `for (key in collisionInfo)` is the
 * insertion order of the keys (none of them is an integer).
 */
module CollisionManagers {
  import opened Util
  import opened CollisionEvents
  import opened Physics
  import opened Simulations
  import opened Contacts

  /** The key `idA + '-' + idB`: two ids, the smaller first (distinct pairs never share a key string). */
  datatype Key = Key(a: nat, b: nat)

  /** The canonical key of a pair, whichever order its ids come in. */
  function PairKey(id0: nat, id1: nat): (k: Key)
    ensures k.a <= k.b && multiset{k.a, k.b} == multiset{id0, id1}
  {
    if id0 <= id1 then Key(id0, id1) else Key(id1, id0)
  }

  /** `CollisionReport`: what a handler receives — the other party and one report per contact. */
  datatype CollisionReport = CollisionReport(other: Actor, contacts: seq<ContactReport>)

  /** `CollisionInfo`, as it stands between `getCollisionInfo` and `clear`. */
  datatype CollisionInfo = CollisionInfo(
    proxyA: ActorProxy,
    proxyB: ActorProxy,
    begin: bool,
    end: bool,
    gatherArgsMask: ArgMask,
    contacts: seq<ContactRecord>,
    reportA: Option<CollisionReport>,
    reportB: Option<CollisionReport>)

  /** `shouldStoreContacts`. */
  predicate ShouldStoreContacts(info: CollisionInfo)
  {
    info.gatherArgsMask != {}
  }

  /** `CollisionInfo.computeArguments`: every contact derives what the mask asks for. */
  function ComputeAll(cs: seq<ContactRecord>, flags: ArgMask): (r: seq<ContactRecord>)
    ensures |r| == |cs|
    ensures forall i :: 0 <= i < |cs| ==> r[i] == ComputeArguments(cs[i], flags)
  {
    if cs == [] then [] else [ComputeArguments(cs[0], flags)] + ComputeAll(cs[1..], flags)
  }

  /**
   * One report per contact, in order, each built by `ContactReport.set` as
   * written: the party's own normal, and as average tangent impulse the
   * contact's `tangentNormalImpulse`.
   */
  function ContactReports(cs: seq<ContactInfo>, forA: bool): (r: seq<ContactReport>)
    ensures |r| == |cs|
    ensures forall i :: 0 <= i < |cs| ==> r[i] == ContactReportAsWritten(cs[i], forA)
    ensures forall i :: 0 <= i < |cs| ==>
      r[i].worldNormal == (if forA then cs[i].worldNormalA else cs[i].worldNormalB)
      && r[i].averageTangentImpulse == Some(cs[i].tangentNormalImpulse)
  {
    if cs == [] then [] else [ContactReportAsWritten(cs[0], forA)] + ContactReports(cs[1..], forA)
  }

  /**
   * `CollisionReport.set`: the other party is the proxy on the opposite
   * side, and since no flags are passed every contact gets a report.
   */
  function Report(info: CollisionInfo, forA: bool): CollisionReport
  {
    CollisionReport(if forA then info.proxyB.actor else info.proxyA.actor, ContactReports(info.contacts, forA))
  }

  /** One handler call: `actor.publish(name, timeInfo, actionList, report)`. */
  datatype Publication = Publication(actor: Actor, name: string, report: CollisionReport)

  function Publications(actor: Actor, events: seq<CollisionEvent>, report: CollisionReport): (r: seq<Publication>)
    ensures |r| == |events|
    ensures forall i :: 0 <= i < |events| ==> r[i] == Publication(actor, events[i].name, report)
  {
    if events == [] then [] else [Publication(actor, events[0].name, report)] + Publications(actor, events[1..], report)
  }

  /** The free lists. */
  datatype Pools = Pools(infos: nat, contactInfos: seq<ContactRecord>, reports: nat, contactReports: nat)

  /** `pool.pop() || new Ctor()` on a counted pool, `n` times. */
  function Take(n: nat, k: nat): nat
  {
    if n <= k then 0 else n - k
  }

  /** A record, the pools and the handler calls after one step of firing. */
  datatype Step = Step(info: CollisionInfo, pools: Pools, published: seq<Publication>)

  /**
   * `getReport`: a report for one side is taken from the pool (with one
   * contact report per contact), stored on the record and handed to every
   * event of that side.
   */
  function GetReport(info: CollisionInfo, forA: bool, events: seq<CollisionEvent>, pools: Pools): Step
  {
    var report := Report(info, forA);
    var pools' := pools.(reports := Take(pools.reports, 1), contactReports := Take(pools.contactReports, |info.contacts|));
    var info' := if forA then info.(reportA := Some(report)) else info.(reportB := Some(report));
    Step(info', pools', Publications(if forA then info.proxyA.actor else info.proxyB.actor, events, report))
  }

  /** The events of a list that fire for a record in this step. */
  function Matching(es: seq<CollisionEvent>, info: CollisionInfo): seq<CollisionEvent>
  {
    Filter(es, FiredCondition(info.begin, info.end))
  }

  /**
   * An event fires for a record exactly when it is registered and its
   * condition names the record's single fired flag: `begin` for a pair
   * that began in the step (whether or not it also ended), `end` for one
   * that only ended, `continue` for one that did neither.
   */
  lemma MatchingEvents(es: seq<CollisionEvent>, begin: bool, end: bool)
    ensures forall e :: e in Filter(es, FiredCondition(begin, end)) <==>
      e in es && (if begin then Begin in e.conditionMask else if end then End in e.conditionMask else Continue in e.conditionMask)
  {
    var cond := FiredCondition(begin, end);
    FilterMembers(es, cond);
    assert cond == if begin then {Begin} else if end then {End} else {Continue};
  }

  /** The body of the `fireCollisionEvents` loop for one record, given each side's matching events. */
  function FireOne(info: CollisionInfo, eventsA: seq<CollisionEvent>, eventsB: seq<CollisionEvent>, pools: Pools): (r: Step)
    ensures r.info.proxyA == info.proxyA && r.info.proxyB == info.proxyB
    ensures r.pools.contactInfos == pools.contactInfos
    ensures |r.published| == |eventsA| + |eventsB|
  {
    if eventsA == [] && eventsB == [] then Step(info, pools, [])
    else
      var computed := info.(contacts := ComputeAll(info.contacts, ArgumentMask(eventsA, true) + ArgumentMask(eventsB, false)));
      var sA := if eventsA != [] then GetReport(computed, true, eventsA, pools) else Step(computed, pools, []);
      var sB := if eventsB != [] then GetReport(sA.info, false, eventsB, sA.pools) else Step(sA.info, sA.pools, []);
      Step(sB.info, sB.pools, sA.published + sB.published)
  }

  /** Where each publication of two appended runs sits. */
  lemma PublicationsAppend(actorA: Actor, eventsA: seq<CollisionEvent>, reportA: CollisionReport,
                           actorB: Actor, eventsB: seq<CollisionEvent>, reportB: CollisionReport)
    ensures var pubs := Publications(actorA, eventsA, reportA) + Publications(actorB, eventsB, reportB);
      (forall i :: 0 <= i < |eventsA| ==> pubs[i] == Publication(actorA, eventsA[i].name, reportA))
      && (forall i :: 0 <= i < |eventsB| ==> pubs[|eventsA| + i] == Publication(actorB, eventsB[i].name, reportB))
  {
    var pa, pb := Publications(actorA, eventsA, reportA), Publications(actorB, eventsB, reportB);
    forall i | 0 <= i < |eventsB|
      ensures (pa + pb)[|eventsA| + i] == Publication(actorB, eventsB[i].name, reportB)
    {
      assert (pa + pb)[|pa| + i] == pb[i];
    }
  }

  /**
   * The publications of one firing are A's then B's, each side's report
   * built from the contacts once their arguments are derived.
   */
  lemma FireOnePublished(info: CollisionInfo, eventsA: seq<CollisionEvent>, eventsB: seq<CollisionEvent>, pools: Pools)
    ensures var c := info.(contacts := ComputeAll(info.contacts, ArgumentMask(eventsA, true) + ArgumentMask(eventsB, false)));
      FireOne(info, eventsA, eventsB, pools).published
      == Publications(info.proxyA.actor, eventsA, Report(c, true)) + Publications(info.proxyB.actor, eventsB, Report(c, false))
  {
    var c := info.(contacts := ComputeAll(info.contacts, ArgumentMask(eventsA, true) + ArgumentMask(eventsB, false)));
    if eventsA != [] || eventsB != [] {
      var sA := if eventsA != [] then GetReport(c, true, eventsA, pools) else Step(c, pools, []);
      assert Report(sA.info, false) == Report(c, false);
    } else {
      assert Publications(info.proxyA.actor, eventsA, Report(c, true)) == [];
    }
  }

  /**
   * Who hears what: A's matching events are published first, in
   * registration order, to A's actor with a report naming B as the other
   * party; then B's, to B's actor with a report naming A; every report has
   * one contact report per contact.
   */
  lemma FireOnePublishes(info: CollisionInfo, eventsA: seq<CollisionEvent>, eventsB: seq<CollisionEvent>, pools: Pools)
    ensures var pubs := FireOne(info, eventsA, eventsB, pools).published;
      (forall i :: 0 <= i < |eventsA| ==>
        pubs[i].actor == info.proxyA.actor && pubs[i].name == eventsA[i].name
        && pubs[i].report.other == info.proxyB.actor && |pubs[i].report.contacts| == |info.contacts|)
      && (forall i :: 0 <= i < |eventsB| ==>
        pubs[|eventsA| + i].actor == info.proxyB.actor && pubs[|eventsA| + i].name == eventsB[i].name
        && pubs[|eventsA| + i].report.other == info.proxyA.actor && |pubs[|eventsA| + i].report.contacts| == |info.contacts|)
  {
    FireOnePublished(info, eventsA, eventsB, pools);
    var c := info.(contacts := ComputeAll(info.contacts, ArgumentMask(eventsA, true) + ArgumentMask(eventsB, false)));
    PublicationsAppend(info.proxyA.actor, eventsA, Report(c, true), info.proxyB.actor, eventsB, Report(c, false));
  }

  /**
   * What firing does to the record: nothing when no event matches;
   * otherwise every contact derives what the matching events ask for in
   * their roles, and the report of each side that has events is stored.
   */
  lemma FireOneComputes(info: CollisionInfo, eventsA: seq<CollisionEvent>, eventsB: seq<CollisionEvent>, pools: Pools)
    ensures var r := FireOne(info, eventsA, eventsB, pools);
      (eventsA == [] && eventsB == [] ==> r.info == info && r.pools == pools)
      && (eventsA != [] || eventsB != [] ==>
        var mask := ArgumentMask(eventsA, true) + ArgumentMask(eventsB, false);
        r.info.contacts == ComputeAll(info.contacts, mask)
        && (forall f :: f in mask <==> (exists e :: e in eventsA && f in e.argumentMaskA) || (exists e :: e in eventsB && f in e.argumentMaskB)))
      && r.info.begin == info.begin && r.info.end == info.end && r.info.gatherArgsMask == info.gatherArgsMask
      && (eventsA != [] ==> r.info.reportA.Some? && r.info.reportA.value.other == info.proxyB.actor)
      && (eventsB != [] ==> r.info.reportB.Some? && r.info.reportB.value.other == info.proxyA.actor)
  {
    if eventsA != [] || eventsB != [] {
      ArgumentMaskIsUnion(eventsA, true);
      ArgumentMaskIsUnion(eventsB, false);
    }
  }

  /** The events registered with the two proxies of a record. */
  datatype Registered = Registered(a: seq<CollisionEvent>, b: seq<CollisionEvent>)

  /** Every proxy a record refers to. */
  function ProxiesOf(records: map<Key, CollisionInfo>): set<ActorProxy>
  {
    (set k | k in records :: records[k].proxyA) + (set k | k in records :: records[k].proxyB)
  }

  /** The events each record's proxies hold; handlers are not modelled, so firing does not change them. */
  function EventsOf(records: map<Key, CollisionInfo>): map<Key, Registered>
    reads ProxiesOf(records)
  {
    map k | k in records :: Registered(records[k].proxyA.collisionEvents, records[k].proxyB.collisionEvents)
  }

  /** The records, pools and handler calls after firing the records under `keys`, in order. */
  datatype Firing = Firing(records: map<Key, CollisionInfo>, pools: Pools, published: seq<Publication>)

  /**
   * One pass of the `fireCollisionEvents` loop: the record under `k` fires
   * with the events of its proxies that match it.
   */
  function FireStep(f: Firing, events: map<Key, Registered>, k: Key): (r: Firing)
    ensures r.records.Keys == f.records.Keys
  {
    if k !in f.records || k !in events then f
    else
      var info := f.records[k];
      var s := FireOne(info, Matching(events[k].a, info), Matching(events[k].b, info), f.pools);
      Firing(f.records[k := s.info], s.pools, f.published + s.published)
  }

  /** Firing the records under `keys`, in order; a record not reached keeps its value. */
  function FireAll(records: map<Key, CollisionInfo>, events: map<Key, Registered>, pools: Pools, keys: seq<Key>): (r: Firing)
    ensures r.records.Keys == records.Keys
    decreases |keys|
  {
    if keys == [] then Firing(records, pools, [])
    else FireStep(FireAll(records, events, pools, keys[..|keys| - 1]), events, keys[|keys| - 1])
  }

  /**
   * Firing leaves every record's proxies alone, leaves a record it does
   * not reach as it was, and takes no contact record from the pool.
   */
  lemma {:induction false} FireAllFrames(records: map<Key, CollisionInfo>, events: map<Key, Registered>, pools: Pools, keys: seq<Key>)
    ensures var r := FireAll(records, events, pools, keys);
      r.pools.contactInfos == pools.contactInfos
      && forall k :: k in records ==>
        r.records[k].proxyA == records[k].proxyA && r.records[k].proxyB == records[k].proxyB
        && (k !in keys ==> r.records[k] == records[k])
    decreases |keys|
  {
    if keys != [] {
      var init := keys[..|keys| - 1];
      FireAllFrames(records, events, pools, init);
      assert forall k :: k !in keys ==> k !in init && k != keys[|keys| - 1] by {
        assert keys == init + [keys[|keys| - 1]];
      }
    }
  }

  lemma FireAllSnoc(records: map<Key, CollisionInfo>, events: map<Key, Registered>, pools: Pools, keys: seq<Key>, k: Key)
    ensures FireAll(records, events, pools, keys + [k]) == FireStep(FireAll(records, events, pools, keys), events, k)
  {
    assert (keys + [k])[..|keys|] == keys;
  }

  /**
   * The loop of `fireCollisionEvents` over the records under `keys`, each
   * firing with the events its proxies hold; handlers are not modelled,
   * so nothing changes those events while the loop runs.
   */
  method FireRecords(records: map<Key, CollisionInfo>, events: map<Key, Registered>, pools: Pools, keys: seq<Key>) returns (f: Firing)
    ensures f == FireAll(records, events, pools, keys)
  {
    f := Firing(records, pools, []);
    var i := 0;
    while i < |keys|
      invariant 0 <= i <= |keys|
      invariant f == FireAll(records, events, pools, keys[..i])
    {
      assert keys[..i + 1] == keys[..i] + [keys[i]];
      FireAllSnoc(records, events, pools, keys[..i], keys[i]);
      f := FireStep(f, events, keys[i]);
      i := i + 1;
    }
    assert keys[..i] == keys;
  }

  /**
   * What clearing one record gives back: the record itself, its contact
   * records in order, and each stored report with its contact reports.
   */
  function ClearOne(info: CollisionInfo, pools: Pools): (r: Pools)
    ensures r.infos == pools.infos + 1 && r.contactInfos == pools.contactInfos + info.contacts
    ensures r.reports == pools.reports + (if info.reportA.Some? then 1 else 0) + (if info.reportB.Some? then 1 else 0)
  {
    var cA := if info.reportA.Some? then |info.reportA.value.contacts| else 0;
    var cB := if info.reportB.Some? then |info.reportB.value.contacts| else 0;
    Pools(pools.infos + 1, pools.contactInfos + info.contacts,
      pools.reports + (if info.reportA.Some? then 1 else 0) + (if info.reportB.Some? then 1 else 0),
      pools.contactReports + cA + cB)
  }

  /** The pools after clearing the records under `keys`, in order. */
  function ClearAll(records: map<Key, CollisionInfo>, pools: Pools, keys: seq<Key>): Pools
    decreases |keys|
  {
    if keys == [] then pools
    else
      var ps := ClearAll(records, pools, keys[..|keys| - 1]);
      var k := keys[|keys| - 1];
      if k in records then ClearOne(records[k], ps) else ps
  }

  /** All contact records of the records under `keys`, in key order. */
  function ContactsOf(records: map<Key, CollisionInfo>, keys: seq<Key>): seq<ContactRecord>
    decreases |keys|
  {
    if keys == [] then []
    else
      var k := keys[|keys| - 1];
      ContactsOf(records, keys[..|keys| - 1]) + (if k in records then records[k].contacts else [])
  }

  /**
   * Clearing returns every record to its free list, so the record pool
   * grows by exactly the number of records, and every contact record
   * comes back to the contact pool, in key order.
   */
  lemma {:induction false} ClearAllReturnsEverything(records: map<Key, CollisionInfo>, pools: Pools, keys: seq<Key>)
    requires forall k :: k in keys ==> k in records
    ensures ClearAll(records, pools, keys).infos == pools.infos + |keys|
    ensures ClearAll(records, pools, keys).contactInfos == pools.contactInfos + ContactsOf(records, keys)
    decreases |keys|
  {
    if keys != [] {
      ClearAllReturnsEverything(records, pools, keys[..|keys| - 1]);
    }
  }

  lemma ClearAllSnoc(records: map<Key, CollisionInfo>, pools: Pools, keys: seq<Key>, k: Key)
    requires k in records
    ensures ClearAll(records, pools, keys + [k]) == ClearOne(records[k], ClearAll(records, pools, keys))
  {
    assert (keys + [k])[..|keys|] == keys;
  }

  /** `ContactInfo.allocate()`: the last freed record, or a new one. */
  function Allocated(pool: seq<ContactRecord>): (ci: ContactRecord)
    ensures pool != [] ==> ci == pool[|pool| - 1]
  {
    if pool == [] then NEW_CONTACT_INFO else pool[|pool| - 1]
  }

  /** The pool once `Allocated` has taken its record. */
  function Released(pool: seq<ContactRecord>): (r: seq<ContactRecord>)
    ensures pool != [] ==> pool == r + [Allocated(pool)]
    ensures pool == [] ==> r == []
  {
    if pool == [] then [] else pool[..|pool| - 1]
  }

  /** Every record sits under the key made of its two proxies' ids. */
  predicate WellKeyed(records: map<Key, CollisionInfo>)
  {
    forall k :: k in records ==>
      k.a <= k.b && records[k].proxyA.id == k.a && records[k].proxyB.id == k.b
  }

  /** Firing keeps every record under the key of its proxies. */
  lemma FireAllWellKeyed(records: map<Key, CollisionInfo>, events: map<Key, Registered>, pools: Pools, keys: seq<Key>)
    requires WellKeyed(records)
    ensures WellKeyed(FireAll(records, events, pools, keys).records)
  {
    FireAllFrames(records, events, pools, keys);
  }

  class CollisionManager {
    const simulation: Simulation
    var records: map<Key, CollisionInfo>
    /** The keys of `records`, oldest first. */
    var order: seq<Key>
    var pools: Pools
    /** Every handler call made so far. */
    var published: seq<Publication>

    ghost predicate Valid()
      reads this
    {
      Distinct(order)
      && (forall k :: k in records <==> k in order)
      && WellKeyed(records)
    }

    constructor (simulation: Simulation)
      ensures this.simulation == simulation && records == map[] && order == []
      ensures pools == Pools(0, [], 0, 0) && published == [] && Valid()
    {
      this.simulation := simulation;
      records := map[];
      order := [];
      pools := Pools(0, [], 0, 0);
      published := [];
    }

    /** Both proxies of a pair exist and at least one of them has an event. */
    ghost predicate Interested(k: Key)
      reads simulation, simulation.proxies.Values
    {
      k.a in simulation.proxies && k.b in simulation.proxies
      && (simulation.proxies[k.a].collisionEvents != [] || simulation.proxies[k.b].collisionEvents != [])
    }

    /**
     * `getCollisionInfo`: the pair's record, made on first use. A new
     * record is made only when both proxies exist and one of them has an
     * event; its gather mask is the union of A's role-A masks and B's
     * role-B masks.
     */
    method GetCollisionInfo(id0: nat, id1: nat) returns (key: Option<Key>)
      requires Valid() && simulation.Valid()
      modifies this`records, this`order, this`pools
      ensures Valid()
      ensures var k := PairKey(id0, id1);
        if k in old(records) then
          key == Some(k) && records == old(records) && order == old(order) && pools == old(pools)
        else if !old(Interested(k)) then
          key == None && records == old(records) && order == old(order) && pools == old(pools)
        else
          var pa, pb := simulation.proxies[k.a], simulation.proxies[k.b];
          key == Some(k) && order == old(order) + [k] && pools == old(pools).(infos := Take(old(pools).infos, 1))
          && records == old(records)[k := CollisionInfo(pa, pb, false, false,
               ArgumentMask(pa.collisionEvents, true) + ArgumentMask(pb.collisionEvents, false), [], None, None)]
    {
      var k := PairKey(id0, id1);
      if k in records {
        return Some(k);
      }
      if k.a !in simulation.proxies || k.b !in simulation.proxies {
        return None;
      }
      var pa, pb := simulation.proxies[k.a], simulation.proxies[k.b];
      if pa.collisionEvents == [] && pb.collisionEvents == [] {
        return None;
      }
      var mask := ArgumentMask(pa.collisionEvents, true) + ArgumentMask(pb.collisionEvents, false);
      pools := pools.(infos := Take(pools.infos, 1));
      records := records[k := CollisionInfo(pa, pb, false, false, mask, [], None, None)];
      order := order + [k];
      return Some(k);
    }

    /**
     * `registerEvent`: a name already registered for the actor, or one that
     * is not a collision event, changes nothing; one with an unknown
     * argument throws; otherwise the parsed event is appended to the
     * actor's proxy. An actor with no proxy fails on the missing proxy.
     */
    method RegisterEvent(actorId: nat, eventName: string) returns (out: Outcome)
      modifies if actorId in simulation.proxies then {simulation.proxies[actorId]} else {}
      ensures actorId !in simulation.proxies ==> out == Fail("TypeError")
      ensures actorId in simulation.proxies ==>
        var p := simulation.proxies[actorId];
        match Register(old(p.collisionEvents), eventName)
        case Err(m) => out == Fail(m) && p.collisionEvents == old(p.collisionEvents)
        case Ok(es) => out == Pass && p.collisionEvents == es
    {
      if actorId !in simulation.proxies {
        return Fail("TypeError");
      }
      var proxy := simulation.proxies[actorId];
      var event := proxy.FindEventByName(eventName);
      if event.None? {
        match CreateFromName(eventName)
        case NotCollision =>
        case Thrown(m) =>
          return Fail(m);
        case Created(e) =>
          proxy.AddEvent(e);
      }
      return Pass;
    }

    /**
     * `unregisterEvent`: the first event of that name is removed from the
     * actor's proxy, and the answer says whether there was one.
     */
    method UnregisterEvent(actorId: nat, eventName: string) returns (removed: bool, out: Outcome)
      modifies if actorId in simulation.proxies then {simulation.proxies[actorId]} else {}
      ensures actorId !in simulation.proxies ==> out == Fail("TypeError") && !removed
      ensures actorId in simulation.proxies ==>
        var p := simulation.proxies[actorId];
        out == Pass && (removed, p.collisionEvents) == Unregister(old(p.collisionEvents), eventName)
    {
      if actorId !in simulation.proxies {
        return false, Fail("TypeError");
      }
      var proxy := simulation.proxies[actorId];
      var event := proxy.FindEventByName(eventName);
      if event.Some? {
        ghost var i := FirstNamed(proxy.collisionEvents, eventName).value;
        assert IndexOf(proxy.collisionEvents, event.value) == Some(i) by {
          var j := IndexOf(proxy.collisionEvents, event.value);
          assert j.Some? && j.value <= i;
        }
        removed := proxy.RemoveEvent(event.value);
      } else {
        removed := false;
      }
      out := Pass;
    }

    /**
     * The base `fireCollisionEvents`: every record, in key order, fires as
     * `FireAll` says. Handlers run inside `publish`; the model records the
     * calls and not what the handlers do.
     */
    method FireEvents()
      requires Valid()
      modifies this`records, this`pools, this`published
      ensures Valid()
      ensures var f := FireAll(old(records), old(EventsOf(records)), old(pools), order);
        records == f.records && pools == f.pools && published == old(published) + f.published
    {
      var events := EventsOf(records);
      var f := FireRecords(records, events, pools, order);
      FireAllWellKeyed(records, events, pools, order);
      records, pools, published := f.records, f.pools, published + f.published;
    }

    /**
     * `_clear`: every record, in key order, is cleared and returned to its
     * pool with its contacts and reports; every key is deleted, so no
     * record is left.
     */
    method Clear()
      requires Valid()
      modifies this`records, this`order, this`pools
      ensures Valid()
      ensures records == map[] && order == []
      ensures pools == ClearAll(old(records), old(pools), old(order))
    {
      ghost var pools0, records0, order0 := pools, records, order;
      assert forall k :: k in order ==> k in records;
      var i := 0;
      while i < |order|
        invariant 0 <= i <= |order| && records == records0 && order == order0
        invariant pools == ClearAll(records, pools0, order[..i])
      {
        var k := order[i];
        ClearAllSnoc(records, pools0, order[..i], k);
        assert order[..i + 1] == order[..i] + [k];
        pools := ClearOne(records[k], pools);
        i := i + 1;
      }
      assert order[..i] == order;
      records := map[];
      order := [];
    }

    /**
     * The listening manager's `fireCollisionEvents`: the base firing runs
     * first, so handlers see this step's records, and then everything is
     * cleared, so none survives into the next step.
     */
    method FireCollisionEvents()
      requires Valid()
      modifies this`records, this`order, this`pools, this`published
      ensures Valid()
      ensures records == map[] && order == []
      ensures var fired := FireAll(old(records), old(EventsOf(records)), old(pools), old(order));
        published == old(published) + fired.published && pools == ClearAll(fired.records, fired.pools, old(order))
    {
      FireEvents();
      Clear();
    }

    /**
     * `CollisionInfo.addContactInfo`: a contact record is taken from the
     * pool (the most recently freed, or a new one), gathers what the
     * record's mask asks for, and is appended to the record's contacts.
     */
    method AddContactInfo(k: Key, contact: Contact, flipped: bool)
      requires Valid() && k in records && ContactShaped(contact)
      modifies this`records, this`pools
      ensures Valid() && order == old(order)
      ensures pools.contactInfos == Released(old(pools.contactInfos))
      ensures records == old(records)[k := old(records)[k].(contacts := old(records)[k].contacts
        + [Gather(Allocated(old(pools.contactInfos)), contact, flipped, old(records)[k].gatherArgsMask)])]
    {
      var info := records[k];
      var ci := Allocated(pools.contactInfos);
      pools := pools.(contactInfos := Released(pools.contactInfos));
      records := records[k := info.(contacts := info.contacts + [Gather(ci, contact, flipped, info.gatherArgsMask)])];
    }
  }

  /** The contact listener: forwards the physics library's callbacks to its manager's records. */
  class ContactListener {
    const manager: CollisionManager

    constructor (manager: CollisionManager)
      ensures this.manager == manager
    {
      this.manager := manager;
    }

    /** `BeginContact`: sets `begin` on the pair's record, if the manager keeps one. */
    method BeginContact(idA: nat, idB: nat)
      requires manager.Valid() && manager.simulation.Valid()
      modifies manager`records, manager`order, manager`pools
      ensures manager.Valid()
      ensures var k := PairKey(idA, idB);
        (k in manager.records <==> k in old(manager.records) || old(manager.Interested(k)))
        && (forall k' :: k' in old(manager.records) ==> k' in manager.records)
        && (forall k' :: k' in manager.records && k' != k ==> k' in old(manager.records) && manager.records[k'] == old(manager.records)[k'])
        && (k in manager.records ==> manager.records[k].begin)
    {
      var key := manager.GetCollisionInfo(idA, idB);
      if key.Some? {
        var k := key.value;
        manager.records := manager.records[k := manager.records[k].(begin := true)];
      }
    }

    /** `EndContact`: sets `end` on the pair's record, if the manager keeps one. */
    method EndContact(idA: nat, idB: nat)
      requires manager.Valid() && manager.simulation.Valid()
      modifies manager`records, manager`order, manager`pools
      ensures manager.Valid()
      ensures var k := PairKey(idA, idB);
        (k in manager.records <==> k in old(manager.records) || old(manager.Interested(k)))
        && (forall k' :: k' in old(manager.records) ==> k' in manager.records)
        && (forall k' :: k' in manager.records && k' != k ==> k' in old(manager.records) && manager.records[k'] == old(manager.records)[k'])
        && (k in manager.records ==> manager.records[k].end)
    {
      var key := manager.GetCollisionInfo(idA, idB);
      if key.Some? {
        var k := key.value;
        manager.records := manager.records[k := manager.records[k].(end := true)];
      }
    }

    /**
     * `PostSolve`: when the pair has a record whose gather mask is not
     * empty, a contact is added to it, flipped when the second body's id
     * is the smaller; a record with an empty mask stores no contacts.
     */
    method PostSolve(idA: nat, idB: nat, contact: Contact)
      requires manager.Valid() && manager.simulation.Valid() && ContactShaped(contact)
      modifies manager`records, manager`order, manager`pools
      ensures manager.Valid()
      ensures var k := PairKey(idA, idB);
        (k in manager.records <==> k in old(manager.records) || old(manager.Interested(k)))
        && (forall k' :: k' in old(manager.records) ==> k' in manager.records)
        && (forall k' :: k' in manager.records && k' != k ==> k' in old(manager.records) && manager.records[k'] == old(manager.records)[k'])
        && (k in manager.records ==>
              var before := if k in old(manager.records) then old(manager.records[k]).contacts else [];
              var mask := manager.records[k].gatherArgsMask;
              manager.records[k].contacts == before + (if mask == {} then [] else [Gather(Allocated(old(manager.pools.contactInfos)), contact, idB < idA, mask)]))
    {
      var key := manager.GetCollisionInfo(idA, idB);
      if key.Some? && ShouldStoreContacts(manager.records[key.value]) {
        manager.AddContactInfo(key.value, contact, idB < idA);
      }
    }
  }
}
