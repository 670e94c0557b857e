/**
 * Collision-event names and masks. A handler subscribes to a name such as
 * `collision:begin:average-world-point:world-normal`: the second segment is
 * the condition (begin, end, continue or any) and every later segment names
 * a derived contact quantity the handler wants. A parsed name becomes a
 * `CollisionEvent`: one condition mask and two argument masks, one for each
 * role (A, the smaller body id, and B) the subscriber may play in a pair.
 *
 * A bit mask is modelled as the set of its flags: `|` is union, `m & f`
 * being nonzero is `f in m`, and `a & b` being nonzero is a nonempty
 * intersection.
 */
module CollisionEvents {
  import opened Util

  /** `ConditionFlag`: BEGIN 1, END 2, CONTINUE 4 (ANY is all three). */
  datatype Condition = Begin | End | Continue

  /**
   * `ArgumentFlag`, bit 0 (POINTS_A) up to bit 13
   * (IMPULSE_TANGENT_AVERAGE), in this order.
   */
  datatype Arg =
    | PointsA | PointsB | PointsWorld
    | PointAverageA | PointAverageB | PointAverageWorld
    | NormalA | NormalB | NormalWorldA | NormalWorldB
    | ImpulsesNormal | ImpulseNormalAverage | ImpulsesTangent | ImpulseTangentAverage

  type ConditionMask = set<Condition>
  type ArgMask = set<Arg>

  const ANY: ConditionMask := {Begin, End, Continue}
  const WORLD_ANY: ArgMask := {PointsWorld, PointAverageWorld, NormalWorldA, NormalWorldB}

  /** `ConditionFlagsByName`. */
  function ConditionFlagByName(name: string): Option<ConditionMask>
  {
    if name == "begin" then Some({Begin})
    else if name == "end" then Some({End})
    else if name == "continue" then Some({Continue})
    else if name == "any" then Some(ANY)
    else None
  }

  /**
   * `ArgumentFlagsByNameA` and `ArgumentFlagsByNameB`: the same names; only
   * `world-normal` differs, asking for the normal as seen by that role.
   */
  function ArgumentFlagByName(name: string, forA: bool): Option<Arg>
  {
    if name == "world-points" then Some(PointsWorld)
    else if name == "average-world-point" then Some(PointAverageWorld)
    else if name == "normal-impulses" then Some(ImpulsesNormal)
    else if name == "average-normal-impulse" then Some(ImpulseNormalAverage)
    else if name == "tangent-impulses" then Some(ImpulsesTangent)
    else if name == "average-tangent-impulse" then Some(ImpulseTangentAverage)
    else if name == "world-normal" then Some(if forA then NormalWorldA else NormalWorldB)
    else None
  }

  datatype CollisionEvent = CollisionEvent(name: string, conditionMask: ConditionMask, argumentMaskA: ArgMask, argumentMaskB: ArgMask)

  /**
   * The loop over argument segments of `createFromName`: the masks of both
   * roles, ORed left to right, or the error thrown at the first unknown
   * segment (one unknown to table A; both tables know the same names).
   */
  function ArgumentMasks(args: seq<string>): Result<(ArgMask, ArgMask)>
  {
    if args == [] then Ok(({}, {}))
    else match ArgumentFlagByName(args[0], true)
      case None => Err("Invalid collision argument name:" + args[0])
      case Some(a) =>
        match ArgumentMasks(args[1..])
        case Err(m) => Err(m)
        case Ok(rest) => Ok(({a} + rest.0, {ArgumentFlagByName(args[0], false).value} + rest.1))
  }

  /** An argument segment in front of others adds its flag to each role's mask. */
  lemma ArgumentMasksCons(x: string, rest: seq<string>, a: Arg, b: Arg, ma: ArgMask, mb: ArgMask)
    requires ArgumentFlagByName(x, true) == Some(a) && ArgumentFlagByName(x, false) == Some(b)
    requires ArgumentMasks(rest) == Ok((ma, mb))
    ensures ArgumentMasks([x] + rest) == Ok(({a} + ma, {b} + mb))
  {
    assert ([x] + rest)[0] == x && ([x] + rest)[1..] == rest;
  }

  /** What `createFromName` does with a name: not a collision event (`false`), an event, or a throw. */
  datatype Created = NotCollision | Created(event: CollisionEvent) | Thrown(msg: string)

  /** `CollisionEvent.createFromName`. */
  function CreateFromName(eventName: string): (r: Created)
    ensures r.Created? ==> r.event.name == eventName
    ensures r.NotCollision? <==>
      var names := SplitOn(eventName, ':');
      names[0] != "collision" || |names| < 2 || ConditionFlagByName(names[1]).None?
  {
    var names := SplitOn(eventName, ':');
    if names[0] != "collision" || |names| < 2 then NotCollision
    else match ConditionFlagByName(names[1])
      case None => NotCollision
      case Some(cond) =>
        match ArgumentMasks(names[2..])
        case Err(m) => Thrown(m)
        case Ok(masks) => Created(CollisionEvent(eventName, cond, masks.0, masks.1))
  }

  /** The role-B mask that goes with a role-A mask: the A world normal turned into the B one. */
  function SwapWorldNormal(a: ArgMask): ArgMask
  {
    (a - {NormalWorldA}) + (if NormalWorldA in a then {NormalWorldB} else {})
  }

  /** The flag some segment of `args` names for role A. */
  predicate Named(args: seq<string>, f: Arg)
  {
    exists i :: 0 <= i < |args| && ArgumentFlagByName(args[i], true) == Some(f)
  }

  /** Both tables know the same names; the B flag is the A flag with the world normal swapped. */
  lemma FlagTables(name: string)
    ensures ArgumentFlagByName(name, false).Some? <==> ArgumentFlagByName(name, true).Some?
    ensures ArgumentFlagByName(name, true).Some? ==>
      var a := ArgumentFlagByName(name, true).value;
      a != NormalWorldB && {ArgumentFlagByName(name, false).value} == SwapWorldNormal({a})
  {
  }

  /** The argument loop throws exactly when some segment is unknown... */
  lemma {:induction false} ArgumentMasksThrow(args: seq<string>)
    ensures ArgumentMasks(args).Err? <==> exists i :: 0 <= i < |args| && ArgumentFlagByName(args[i], true).None?
  {
    if args != [] {
      var rest := args[1..];
      ArgumentMasksThrow(rest);
      if ArgumentFlagByName(args[0], true).Some? {
        if ArgumentMasks(rest).Err? {
          var i :| 0 <= i < |rest| && ArgumentFlagByName(rest[i], true).None?;
          assert args[i + 1] == rest[i];
        }
      }
    }
  }

  /**
   * ...and otherwise its role-A mask holds exactly the flags the segments
   * name, and its role-B mask differs from it only in the world normal.
   */
  lemma {:induction false} ArgumentMasksContent(args: seq<string>)
    requires ArgumentMasks(args).Ok?
    ensures var (a, b) := ArgumentMasks(args).value;
      b == SwapWorldNormal(a) && NormalWorldB !in a && forall f :: f in a <==> Named(args, f)
  {
    if args != [] {
      var rest := args[1..];
      ArgumentMasksContent(rest);
      FlagTables(args[0]);
      var f0 := ArgumentFlagByName(args[0], true).value;
      var (ra, rb) := ArgumentMasks(rest).value;
      assert ArgumentMasks(args).value.0 == {f0} + ra;
      forall f
        ensures f in {f0} + ra <==> Named(args, f)
      {
        if Named(args, f) {
          var i :| 0 <= i < |args| && ArgumentFlagByName(args[i], true) == Some(f);
          if i > 0 {
            assert rest[i - 1] == args[i];
          }
        }
        if f in ra {
          var i :| 0 <= i < |rest| && ArgumentFlagByName(rest[i], true) == Some(f);
          assert args[i + 1] == rest[i];
        }
      }
    }
  }

  /**
   * A parsed event's role-B mask is its role-A mask with `world-normal`
   * asking for the B normal instead of the A one; a name with an unknown
   * argument segment throws.
   */
  lemma CreatedMasks(eventName: string)
    ensures CreateFromName(eventName).Created? ==>
      var e := CreateFromName(eventName).event;
      e.argumentMaskB == SwapWorldNormal(e.argumentMaskA) && NormalWorldB !in e.argumentMaskA
      && e.conditionMask != {}
    ensures CreateFromName(eventName).Thrown? <==>
      var names := SplitOn(eventName, ':');
      names[0] == "collision" && |names| >= 2 && ConditionFlagByName(names[1]).Some?
      && exists i :: 2 <= i < |names| && ArgumentFlagByName(names[i], true).None?
  {
    var names := SplitOn(eventName, ':');
    if names[0] == "collision" && |names| >= 2 {
      ArgumentMasksThrow(names[2..]);
      if ArgumentMasks(names[2..]).Ok? {
        ArgumentMasksContent(names[2..]);
      }
      assert forall i :: 2 <= i < |names| ==> names[i] == names[2..][i - 2];
    }
  }

  /**
   * The condition mask of `fireCollisionEvents`. As written,
   * `a ? X : 0 | b ? Y : 0 | c ? Z : 0` parses as `a ? X : ((0 | b) ? Y :
   * ((0 | c) ? Z : 0))`, so the mask is a single flag rather than an OR.
   */
  function FiredCondition(begin: bool, end: bool): (m: ConditionMask)
    ensures |m| == 1
    ensures Begin in m <==> begin
    ensures End in m <==> !begin && end
    ensures Continue in m <==> !begin && !end
  {
    if begin then {Begin} else if end then {End} else if begin == end then {Continue} else {}
  }

  /**
   * A pair that both began and ended within one step matches only `begin`
   * and `any` events: an `end` event does not fire for it.
   */
  lemma BeganAndEnded()
    ensures FiredCondition(true, true) * {End} == {} && FiredCondition(true, true) * {Continue} == {}
    ensures FiredCondition(true, true) * ANY != {}
  {
    assert Begin in FiredCondition(true, true) * ANY;
  }

  /** `filterEvents`: the events sharing a flag with the mask, in order. */
  function Filter(es: seq<CollisionEvent>, mask: ConditionMask): seq<CollisionEvent>
  {
    if es == [] then []
    else Filter(es[..|es| - 1], mask) + (if es[|es| - 1].conditionMask * mask != {} then [es[|es| - 1]] else [])
  }

  /** Filtering keeps exactly the events whose condition shares a flag with the mask... */
  lemma {:induction false} FilterMembers(es: seq<CollisionEvent>, mask: ConditionMask)
    ensures forall e :: e in Filter(es, mask) <==> e in es && e.conditionMask * mask != {}
  {
    if es != [] {
      FilterMembers(es[..|es| - 1], mask);
      assert es == es[..|es| - 1] + [es[|es| - 1]];
    }
  }

  /** ...and keeps their order: filtering a concatenation concatenates the filtered parts. */
  lemma {:induction false} FilterAppend(a: seq<CollisionEvent>, b: seq<CollisionEvent>, mask: ConditionMask)
    ensures Filter(a + b, mask) == Filter(a, mask) + Filter(b, mask)
    decreases |b|
  {
    if b != [] {
      var b' := b[..|b| - 1];
      FilterAppend(a, b', mask);
      assert (a + b)[..|a + b| - 1] == a + b';
    } else {
      assert a + b == a;
    }
  }

  /**
   * A pair that began and ended within one step: an event listening only
   * for `end` is filtered out by the condition mask as written.
   */
  lemma EndMissedWhenBeganToo(es: seq<CollisionEvent>)
    ensures forall e :: e in es && e.conditionMask == {End} ==> e !in Filter(es, FiredCondition(true, true))
  {
    FilterMembers(es, FiredCondition(true, true));
  }

  /**
   * The condition mask the three clauses evidently mean: the OR of BEGIN
   * when the contact began, END when it ended, and CONTINUE when it did
   * both or neither.
   */
  function IntendedCondition(begin: bool, end: bool): (m: ConditionMask)
    ensures Begin in m <==> begin
    ensures End in m <==> end
    ensures Continue in m <==> begin == end
    ensures m != {}
  {
    (if begin then {Begin} else {}) + (if end then {End} else {}) + (if begin == end then {Continue} else {})
  }

  /** With the intended mask, every `end` event fires whenever the contact ended, whether or not it also began. */
  lemma EndFiresWhenEnded(es: seq<CollisionEvent>, begin: bool)
    ensures forall e :: e in es && End in e.conditionMask ==> e in Filter(es, IntendedCondition(begin, true))
  {
    FilterMembers(es, IntendedCondition(begin, true));
  }

  /** The two masks agree on every step except one where the contact both began and ended. */
  lemma IntendedAgreesUnlessBoth(begin: bool, end: bool)
    ensures !(begin && end) <==> IntendedCondition(begin, end) == FiredCondition(begin, end)
  {
    if begin && end {
      assert End in IntendedCondition(begin, end);
    }
  }

  function RoleMask(e: CollisionEvent, forA: bool): ArgMask
  {
    if forA then e.argumentMaskA else e.argumentMaskB
  }

  /** `getArgumentMask`: the OR of every event's mask for one role. */
  function ArgumentMask(es: seq<CollisionEvent>, forA: bool): ArgMask
  {
    if es == [] then {} else ArgumentMask(es[..|es| - 1], forA) + RoleMask(es[|es| - 1], forA)
  }

  /** The OR holds exactly the flags some event asks for in that role. */
  lemma {:induction false} ArgumentMaskIsUnion(es: seq<CollisionEvent>, forA: bool)
    ensures forall f :: f in ArgumentMask(es, forA) <==> exists e :: e in es && f in RoleMask(e, forA)
  {
    if es != [] {
      ArgumentMaskIsUnion(es[..|es| - 1], forA);
      assert es == es[..|es| - 1] + [es[|es| - 1]];
    }
  }

  /** The first index holding an event of that name. */
  function FirstNamed(es: seq<CollisionEvent>, name: string): (r: Option<nat>)
    ensures r.Some? ==> r.value < |es| && es[r.value].name == name && forall j :: 0 <= j < r.value ==> es[j].name != name
    ensures r.None? ==> forall j :: 0 <= j < |es| ==> es[j].name != name
  {
    if es == [] then None
    else if es[0].name == name then Some(0)
    else match FirstNamed(es[1..], name)
      case None => None
      case Some(i) => Some(i + 1)
  }

  /** No two events share a name. */
  predicate NamesUnique(es: seq<CollisionEvent>)
  {
    forall i, j :: 0 <= i < j < |es| ==> es[i].name != es[j].name
  }

  /**
   * A name whose segments are `collision`, a known condition and known
   * arguments parses to the event with that condition and those masks.
   */
  lemma CreatedFromSegments(name: string, cond: string, args: seq<string>, cm: ConditionMask, ma: ArgMask, mb: ArgMask)
    requires SplitOn(name, ':') == ["collision", cond] + args
    requires ConditionFlagByName(cond) == Some(cm) && ArgumentMasks(args) == Ok((ma, mb))
    ensures CreateFromName(name) == Created(CollisionEvent(name, cm, ma, mb))
  {
    assert (["collision", cond] + args)[2..] == args;
  }

  /**
   * `registerEvent` on a proxy's event list: a name already registered, or
   * one that is not a collision event, leaves it as it is; a name with an
   * unknown argument throws; otherwise the parsed event is appended.
   */
  function Register(es: seq<CollisionEvent>, name: string): Result<seq<CollisionEvent>>
  {
    if FirstNamed(es, name).Some? then Ok(es)
    else match CreateFromName(name)
      case NotCollision => Ok(es)
      case Thrown(m) => Err(m)
      case Created(e) => Ok(es + [e])
  }

  /**
   * Registering never adds a second event with a name already present,
   * and adds nothing that `createFromName` does not accept.
   */
  lemma RegisterKeepsNamesUnique(es: seq<CollisionEvent>, name: string)
    requires NamesUnique(es)
    ensures Register(es, name).Ok? ==> NamesUnique(Register(es, name).value)
    ensures Register(es, name).Ok? && Register(es, name).value != es ==>
      CreateFromName(name).Created? && Register(es, name).value == es + [CreateFromName(name).event]
    ensures Register(es, name).Err? <==> FirstNamed(es, name).None? && CreateFromName(name).Thrown?
  {
  }

  /** What registering a list of names leaves: the events, and whether a name threw. */
  datatype Registration = Registration(events: seq<CollisionEvent>, out: Outcome)

  /**
   * Every name in the list registers, in order, until one throws; the
   * names registered before the throw stay registered.
   */
  function RegisterAll(es: seq<CollisionEvent>, names: seq<string>): (r: Registration)
    ensures |es| <= |r.events| && r.events[..|es|] == es
    decreases |names|
  {
    if names == [] then Registration(es, Pass)
    else
      var prev := RegisterAll(es, names[..|names| - 1]);
      if prev.out.Fail? then prev
      else match Register(prev.events, names[|names| - 1])
        case Err(m) => Registration(prev.events, Fail(m))
        case Ok(es') => Registration(es', Pass)
  }

  /** Registering one collision event name on an empty list registers exactly its event. */
  lemma RegisterOne(name: string, e: CollisionEvent)
    requires CreateFromName(name) == Created(e)
    ensures RegisterAll([], [name]) == Registration([e], Pass)
  {
    RegisterAllSnoc([], [], name);
    assert [] + [name] == [name];
  }

  /** One more name: registered as `Register` says, unless an earlier name threw. */
  lemma RegisterAllSnoc(es: seq<CollisionEvent>, names: seq<string>, name: string)
    ensures var prev := RegisterAll(es, names);
      RegisterAll(es, names + [name]) ==
        if prev.out.Fail? then prev
        else match Register(prev.events, name)
          case Err(m) => Registration(prev.events, Fail(m))
          case Ok(es') => Registration(es', Pass)
  {
    assert (names + [name])[..|names|] == names;
  }

  /**
   * Registering a list keeps names unique and adds only events parsed from
   * the listed names; when no name threw, every listed collision event
   * name is registered.
   */
  lemma {:induction false} RegisterAllRegisters(es: seq<CollisionEvent>, names: seq<string>)
    requires NamesUnique(es)
    ensures var r := RegisterAll(es, names);
      NamesUnique(r.events)
      && (forall e :: e in r.events ==> e in es || exists n :: n in names && CreateFromName(n) == Created(e))
      && (r.out.Pass? ==> forall n :: n in names && CreateFromName(n).Created? ==> exists e :: e in r.events && e.name == n)
    decreases |names|
  {
    if names != [] {
      var init, name := names[..|names| - 1], names[|names| - 1];
      assert names == init + [name];
      RegisterAllRegisters(es, init);
      var prev := RegisterAll(es, init);
      RegisterKeepsNamesUnique(prev.events, name);
      var r := RegisterAll(es, names);
      if prev.out.Pass? && Register(prev.events, name).Ok? {
        forall n | n in names && CreateFromName(n).Created?
          ensures exists e :: e in r.events && e.name == n
        {
          if n == name {
            match FirstNamed(prev.events, name)
            case Some(i) => assert prev.events[i] in r.events;
            case None =>
              assert r.events[|r.events| - 1] == CreateFromName(name).event;
          } else {
            assert n in init;
            var e :| e in prev.events && e.name == n;
            assert e in r.events;
          }
        }
      }
    }
  }

  /**
   * `unregisterEvent` on a proxy's event list: the first event of that name
   * is removed (`removeEvent` finds it again by `indexOf`), and whether one
   * was.
   */
  function Unregister(es: seq<CollisionEvent>, name: string): (bool, seq<CollisionEvent>)
  {
    match FirstNamed(es, name)
    case None => (false, es)
    case Some(i) => (true, es[..i] + es[i + 1..])
  }

  /** Every name in the list unregisters, in order. */
  function UnregisterAll(es: seq<CollisionEvent>, names: seq<string>): (r: seq<CollisionEvent>)
    ensures |r| <= |es|
    decreases |names|
  {
    if names == [] then es else Unregister(UnregisterAll(es, names[..|names| - 1]), names[|names| - 1]).1
  }

  /** One more name: unregistered from what the earlier names left. */
  lemma UnregisterAllSnoc(es: seq<CollisionEvent>, names: seq<string>, name: string)
    ensures UnregisterAll(es, names + [name]) == Unregister(UnregisterAll(es, names), name).1
  {
    assert (names + [name])[..|names|] == names;
  }

  /** Unregistering removes exactly the named event and keeps the others in order. */
  lemma UnregisterRemoves(es: seq<CollisionEvent>, name: string)
    requires NamesUnique(es)
    ensures var (removed, es') := Unregister(es, name);
      (removed <==> exists e :: e in es && e.name == name)
      && (forall e :: e in es' <==> e in es && e.name != name)
      && NamesUnique(es')
  {
    match FirstNamed(es, name)
    case None =>
    case Some(i) =>
      var es' := es[..i] + es[i + 1..];
      forall e | e in es
        ensures e in es' <==> e.name != name
      {
        var k :| 0 <= k < |es| && es[k] == e;
        if k < i {
          assert es'[k] == e;
        } else if k > i {
          assert es'[k - 1] == e;
        }
      }
  }

  /** Unregistering a list leaves exactly the events whose names are not listed. */
  lemma {:induction false} UnregisterAllRemoves(es: seq<CollisionEvent>, names: seq<string>)
    requires NamesUnique(es)
    ensures var r := UnregisterAll(es, names);
      NamesUnique(r) && forall e :: e in r <==> e in es && e.name !in names
    decreases |names|
  {
    if names != [] {
      var init, name := names[..|names| - 1], names[|names| - 1];
      assert names == init + [name];
      UnregisterAllRemoves(es, init);
      UnregisterRemoves(UnregisterAll(es, init), name);
    }
  }
}
