/**
 * The collision event a vehicle's physics component subscribes its damage
 * handler to, and what `createFromName` makes of it.
 */
module VehicleEvents {
  import opened Util
  import opened CollisionEvents

  /**
   * The event `setSimulation` subscribes the damage handler to,
   * `collision:begin:average-world-point:world-normal:average-normal-impulse`,
   * kept as its `:`-separated segments.
   */
  const DAMAGE_SEGMENTS: seq<string> := ["collision", "begin", "average-world-point", "world-normal", "average-normal-impulse"]
  const DAMAGE_EVENT: string := JoinWith(DAMAGE_SEGMENTS, ':')

  /** The damage event's name splits on `:` back into its five segments. */
  lemma DamageEventSplits()
    ensures SplitOn(DAMAGE_EVENT, ':') == DAMAGE_SEGMENTS
  {
    JoinSplit(DAMAGE_SEGMENTS, ':');
  }

  /**
   * Each argument name of the damage event names one flag; only the normal
   * depends on the role, party A reading normal A and party B normal B.
   */
  lemma DamageArgumentFlags()
    ensures ArgumentFlagByName("average-world-point", true) == Some(PointAverageWorld)
    ensures ArgumentFlagByName("average-world-point", false) == Some(PointAverageWorld)
    ensures ArgumentFlagByName("world-normal", true) == Some(NormalWorldA)
    ensures ArgumentFlagByName("world-normal", false) == Some(NormalWorldB)
    ensures ArgumentFlagByName("average-normal-impulse", true) == Some(ImpulseNormalAverage)
    ensures ArgumentFlagByName("average-normal-impulse", false) == Some(ImpulseNormalAverage)
  {
  }

  /** The damage event's arguments: the world point, the role's own world normal, the average normal impulse. */
  lemma DamageEventMasks()
    ensures ArgumentMasks(DAMAGE_SEGMENTS[2..]) ==
      Ok(({PointAverageWorld, NormalWorldA, ImpulseNormalAverage}, {PointAverageWorld, NormalWorldB, ImpulseNormalAverage}))
  {
    var c, d, e := "average-world-point", "world-normal", "average-normal-impulse";
    DamageArgumentFlags();
    assert DAMAGE_SEGMENTS[2..] == [c] + [d, e] && [d, e] == [d] + [e] && [e] == [e] + [];
    ArgumentMasksCons(e, [], ImpulseNormalAverage, ImpulseNormalAverage, {}, {});
    assert {ImpulseNormalAverage} + {} == {ImpulseNormalAverage};
    ArgumentMasksCons(d, [e], NormalWorldA, NormalWorldB, {ImpulseNormalAverage}, {ImpulseNormalAverage});
    assert {NormalWorldA} + {ImpulseNormalAverage} == {NormalWorldA, ImpulseNormalAverage};
    assert {NormalWorldB} + {ImpulseNormalAverage} == {NormalWorldB, ImpulseNormalAverage};
    ArgumentMasksCons(c, [d, e], PointAverageWorld, PointAverageWorld,
                      {NormalWorldA, ImpulseNormalAverage}, {NormalWorldB, ImpulseNormalAverage});
    assert {PointAverageWorld} + {NormalWorldA, ImpulseNormalAverage} == {PointAverageWorld, NormalWorldA, ImpulseNormalAverage};
    assert {PointAverageWorld} + {NormalWorldB, ImpulseNormalAverage} == {PointAverageWorld, NormalWorldB, ImpulseNormalAverage};
  }

  /** Any name with the damage event's segments parses to the damage event's condition and masks. */
  lemma DamageSegmentsParse(name: string)
    requires SplitOn(name, ':') == DAMAGE_SEGMENTS
    ensures CreateFromName(name) == Created(CollisionEvent(name, {Begin},
      {PointAverageWorld, NormalWorldA, ImpulseNormalAverage}, {PointAverageWorld, NormalWorldB, ImpulseNormalAverage}))
  {
    DamageEventMasks();
    assert DAMAGE_SEGMENTS == ["collision", "begin"] + DAMAGE_SEGMENTS[2..];
    CreatedFromSegments(name, "begin", DAMAGE_SEGMENTS[2..], {Begin},
      {PointAverageWorld, NormalWorldA, ImpulseNormalAverage}, {PointAverageWorld, NormalWorldB, ImpulseNormalAverage});
  }

  /**
   * The damage event is a collision event that fires when a contact
   * begins and hands both roles the world point, the role's own world
   * normal and the average normal impulse.
   */
  lemma DamageEventParses()
    ensures CreateFromName(DAMAGE_EVENT) == Created(CollisionEvent(DAMAGE_EVENT, {Begin},
      {PointAverageWorld, NormalWorldA, ImpulseNormalAverage}, {PointAverageWorld, NormalWorldB, ImpulseNormalAverage}))
  {
    DamageEventSplits();
    DamageSegmentsParse(DAMAGE_EVENT);
  }
}
