/**
 * Per-contact data the collision manager gathers while the physics step
 * runs and turns into handler arguments afterwards. `ContactInfo` records
 * are pooled and reused, and `gather` only overwrites what the mask asks
 * for, so a recycled record keeps the values of its previous contact
 * everywhere else.
 *
 * The physics library's contact, manifold and impulse objects are reduced
 * to the values the manager copies out of them.
 */
module Contacts {
  import opened Util
  import opened CollisionEvents

  type Vec2 = (real, real)

  const ZERO: Vec2 := (0.0, 0.0)

  function Scale(v: Vec2, k: real): Vec2 { (v.0 * k, v.1 * k) }

  function Midpoint(a: Vec2, b: Vec2): Vec2 { ((a.0 + b.0) / 2.0, (a.1 + b.1) / 2.0) }

  /** A world manifold as the library fills it: two point slots and the normal from A to B. */
  datatype WorldManifold = WorldManifold(points: seq<Vec2>, normal: Vec2)

  /**
   * One solved contact as the library reports it: the manifold's point
   * count, the world manifold it would write, and the two-slot normal and
   * tangent impulse arrays.
   */
  datatype Contact = Contact(pointCount: nat, world: WorldManifold, normalImpulses: seq<real>, tangentImpulses: seq<real>)

  /** The library's fixed shapes: at most two points, two slots in every array. */
  predicate ContactShaped(c: Contact)
  {
    c.pointCount <= 2 && |c.world.points| == 2 && |c.normalImpulses| == 2 && |c.tangentImpulses| == 2
  }

  /**
   * `ContactInfo`. `averageTangentImpulse` is never initialised (`None`
   * until computed); `tangentNormalImpulse` is initialised to 0 and never
   * written again.
   */
  datatype ContactInfo = ContactInfo(
    numPoints: nat,
    flipped: bool,
    worldManifold: WorldManifold,
    worldPoints: seq<Vec2>,
    averageWorldPoint: Vec2,
    worldNormalA: Vec2,
    worldNormalB: Vec2,
    normalImpulses: seq<real>,
    averageNormalImpulse: real,
    tangentImpulses: seq<real>,
    averageTangentImpulse: Option<real>,
    tangentNormalImpulse: real)

  predicate Shaped(ci: ContactInfo)
  {
    ci.numPoints <= 2 && |ci.worldManifold.points| == 2 && |ci.worldPoints| == 2
    && |ci.normalImpulses| == 2 && |ci.tangentImpulses| == 2
  }

  /** A record made by `new ContactInfo()`. */
  const NEW_CONTACT_INFO: ContactInfo :=
    ContactInfo(0, false, WorldManifold([ZERO, ZERO], ZERO), [ZERO, ZERO], ZERO, ZERO, ZERO,
                [0.0, 0.0], 0.0, [0.0, 0.0], None, 0.0)

  /** A contact record as the code keeps it: every array has its two slots. */
  type ContactRecord = ci: ContactInfo | Shaped(ci) witness NEW_CONTACT_INFO

  /** The first `n` slots of `dest` replaced by those of `src`. */
  function Overwrite<T>(dest: seq<T>, src: seq<T>, n: nat): (r: seq<T>)
    requires n <= |dest| && n <= |src|
    ensures |r| == |dest|
  {
    src[..n] + dest[n..]
  }

  const NORMAL_IMPULSE_FLAGS: ArgMask := {ImpulsesNormal, ImpulseNormalAverage}
  const TANGENT_IMPULSE_FLAGS: ArgMask := {ImpulsesTangent, ImpulseTangentAverage}

  /**
   * `ContactInfo.gather`: the point count and flip always; the world
   * manifold only when a world quantity is asked for; the first
   * `numPoints` impulses of a kind only when that kind is asked for.
   */
  function Gather(ci: ContactInfo, c: Contact, flipped: bool, flags: ArgMask): (r: ContactInfo)
    requires Shaped(ci) && ContactShaped(c)
    ensures Shaped(r)
  {
    ci.(numPoints := c.pointCount,
        flipped := flipped,
        worldManifold := if flags * WORLD_ANY != {} then c.world else ci.worldManifold,
        normalImpulses :=
          if flags * NORMAL_IMPULSE_FLAGS != {} then Overwrite(ci.normalImpulses, c.normalImpulses, c.pointCount)
          else ci.normalImpulses,
        tangentImpulses :=
          if flags * TANGENT_IMPULSE_FLAGS != {} then Overwrite(ci.tangentImpulses, c.tangentImpulses, c.pointCount)
          else ci.tangentImpulses)
  }

  /**
   * Gathering copies exactly what the mask asks for: the live points of
   * each impulse kind asked for and the manifold when a world quantity is
   * asked for. Everything else, including the impulse slots past the
   * contact's point count, keeps the value it had, which for a recycled
   * record is its previous contact's.
   */
  lemma GatherCopiesWhatIsAsked(ci: ContactInfo, c: Contact, flipped: bool, flags: ArgMask)
    requires Shaped(ci) && ContactShaped(c)
    ensures var r := Gather(ci, c, flipped, flags);
      r.numPoints == c.pointCount && r.flipped == flipped
      && (flags * WORLD_ANY != {} ==> r.worldManifold == c.world)
      && (flags * WORLD_ANY == {} ==> r.worldManifold == ci.worldManifold)
      && (forall i :: 0 <= i < 2 ==>
            r.normalImpulses[i] == (if flags * NORMAL_IMPULSE_FLAGS != {} && i < c.pointCount then c.normalImpulses[i] else ci.normalImpulses[i]))
      && (forall i :: 0 <= i < 2 ==>
            r.tangentImpulses[i] == (if flags * TANGENT_IMPULSE_FLAGS != {} && i < c.pointCount then c.tangentImpulses[i] else ci.tangentImpulses[i]))
      && r.worldPoints == ci.worldPoints && r.averageWorldPoint == ci.averageWorldPoint
      && r.worldNormalA == ci.worldNormalA && r.worldNormalB == ci.worldNormalB
      && r.averageNormalImpulse == ci.averageNormalImpulse && r.averageTangentImpulse == ci.averageTangentImpulse
      && r.tangentNormalImpulse == ci.tangentNormalImpulse
  {
  }

  /** The average of the first one or two slots (`numPoints === 1` takes slot 0 alone). */
  function Average(xs: seq<real>, numPoints: nat): real
    requires |xs| == 2
  {
    if numPoints == 1 then xs[0] else (xs[0] + xs[1]) / 2.0
  }

  function AveragePoint(ps: seq<Vec2>, numPoints: nat): Vec2
    requires |ps| == 2
  {
    if numPoints == 1 then ps[0] else Midpoint(ps[0], ps[1])
  }

  /**
   * `ContactInfo.computeArguments`: derives the quantities the mask asks
   * for from what `gather` stored. The normal is the manifold's, negated
   * when the contact is flipped, and negated again for B.
   */
  function ComputeArguments(ci: ContactInfo, flags: ArgMask): (r: ContactInfo)
    requires Shaped(ci)
    ensures Shaped(r)
  {
    var flip := if ci.flipped then -1.0 else 1.0;
    var n := ci.worldManifold.normal;
    ci.(worldPoints :=
          if PointsWorld in flags then Overwrite(ci.worldPoints, ci.worldManifold.points, ci.numPoints) else ci.worldPoints,
        averageWorldPoint :=
          if PointAverageWorld in flags then AveragePoint(ci.worldManifold.points, ci.numPoints) else ci.averageWorldPoint,
        worldNormalA := if NormalWorldA in flags then Scale(n, flip) else ci.worldNormalA,
        worldNormalB := if NormalWorldB in flags then Scale(n, -flip) else ci.worldNormalB,
        averageNormalImpulse :=
          if ImpulseNormalAverage in flags then Average(ci.normalImpulses, ci.numPoints) else ci.averageNormalImpulse,
        averageTangentImpulse :=
          if ImpulseTangentAverage in flags then Some(Average(ci.tangentImpulses, ci.numPoints)) else ci.averageTangentImpulse)
  }

  /**
   * The normals handed to A and to B are opposite, and A's points from A
   * towards B whichever body the library called A.
   */
  lemma NormalsOpposite(ci: ContactInfo, flags: ArgMask)
    requires Shaped(ci) && NormalWorldA in flags && NormalWorldB in flags
    ensures var r := ComputeArguments(ci, flags);
      r.worldNormalB == Scale(r.worldNormalA, -1.0)
      && r.worldNormalA == (if ci.flipped then Scale(ci.worldManifold.normal, -1.0) else ci.worldManifold.normal)
  {
  }

  /**
   * Deriving touches only what the mask asks for, and the stored
   * manifold, impulses and flags are left as gathered.
   */
  lemma ComputeOnlyWhatIsAsked(ci: ContactInfo, flags: ArgMask)
    requires Shaped(ci)
    ensures var r := ComputeArguments(ci, flags);
      r.numPoints == ci.numPoints && r.flipped == ci.flipped && r.worldManifold == ci.worldManifold
      && r.normalImpulses == ci.normalImpulses && r.tangentImpulses == ci.tangentImpulses
      && r.tangentNormalImpulse == ci.tangentNormalImpulse
      && (PointsWorld !in flags ==> r.worldPoints == ci.worldPoints)
      && (PointAverageWorld !in flags ==> r.averageWorldPoint == ci.averageWorldPoint)
      && (NormalWorldA !in flags ==> r.worldNormalA == ci.worldNormalA)
      && (NormalWorldB !in flags ==> r.worldNormalB == ci.worldNormalB)
      && (ImpulseNormalAverage !in flags ==> r.averageNormalImpulse == ci.averageNormalImpulse)
      && (ImpulseTangentAverage !in flags ==> r.averageTangentImpulse == ci.averageTangentImpulse)
  {
  }

  /** A gathered-and-derived contact with one point averages to that point and its impulse. */
  lemma SinglePointAverages(ci: ContactInfo, c: Contact, flipped: bool, gatherFlags: ArgMask, flags: ArgMask)
    requires Shaped(ci) && ContactShaped(c) && c.pointCount == 1
    requires flags <= gatherFlags && PointAverageWorld in flags && ImpulseNormalAverage in flags
    ensures var r := ComputeArguments(Gather(ci, c, flipped, gatherFlags), flags);
      r.averageWorldPoint == c.world.points[0] && r.averageNormalImpulse == c.normalImpulses[0]
  {
    assert PointAverageWorld in gatherFlags * WORLD_ANY;
    assert ImpulseNormalAverage in gatherFlags * NORMAL_IMPULSE_FLAGS;
  }

  /** `ContactReport`: a contact from one party's point of view. */
  datatype ContactReport = ContactReport(
    numPoints: nat,
    worldPoints: seq<Vec2>,
    averageWorldPoint: Vec2,
    worldNormal: Vec2,
    normalImpulses: seq<real>,
    averageNormalImpulse: real,
    tangentImpulses: seq<real>,
    averageTangentImpulse: Option<real>)

  /**
   * `ContactReport.set` as written: the average tangent impulse is read
   * from `tangentNormalImpulse`, a field that is only ever 0.
   */
  function ContactReportAsWritten(ci: ContactInfo, forA: bool): (r: ContactReport)
    ensures r.averageTangentImpulse == Some(ci.tangentNormalImpulse)
  {
    ContactReport(ci.numPoints, ci.worldPoints, ci.averageWorldPoint,
                  if forA then ci.worldNormalA else ci.worldNormalB,
                  ci.normalImpulses, ci.averageNormalImpulse, ci.tangentImpulses,
                  Some(ci.tangentNormalImpulse))
  }

  /**
   * `ContactReport.set` with the evident intent: the average tangent
   * impulse is the one `computeArguments` derived.
   */
  function ContactReportOf(ci: ContactInfo, forA: bool): (r: ContactReport)
  {
    ContactReport(ci.numPoints, ci.worldPoints, ci.averageWorldPoint,
                  if forA then ci.worldNormalA else ci.worldNormalB,
                  ci.normalImpulses, ci.averageNormalImpulse, ci.tangentImpulses,
                  ci.averageTangentImpulse)
  }

  /**
   * The two reports of one contact differ only in their normal, and each
   * hands on the derived values, the average tangent impulse included.
   */
  lemma ReportsPerRole(ci: ContactInfo)
    ensures ContactReportOf(ci, true).(worldNormal := ci.worldNormalB) == ContactReportOf(ci, false)
    ensures ContactReportOf(ci, true).worldNormal == ci.worldNormalA
    ensures ContactReportOf(ci, false).averageTangentImpulse == ci.averageTangentImpulse
    ensures ContactReportOf(ci, true).averageNormalImpulse == ci.averageNormalImpulse
  {
  }

  /**
   * Every record the pool ever holds keeps `tangentNormalImpulse` at 0:
   * the constructor sets it and neither gathering nor deriving writes it.
   * So as written, every report's average tangent impulse is 0.
   */
  lemma AsWrittenTangentAlwaysZero(ci: ContactInfo, c: Contact, flipped: bool, gatherFlags: ArgMask, flags: ArgMask, forA: bool)
    requires Shaped(ci) && ContactShaped(c) && ci.tangentNormalImpulse == 0.0
    ensures ContactReportAsWritten(ComputeArguments(Gather(ci, c, flipped, gatherFlags), flags), forA).averageTangentImpulse == Some(0.0)
  {
    GatherCopiesWhatIsAsked(ci, c, flipped, gatherFlags);
    ComputeOnlyWhatIsAsked(Gather(ci, c, flipped, gatherFlags), flags);
  }

  /**
   * A one-point contact with tangent impulse 2 whose handler asks for
   * `average-tangent-impulse`: the derived average is 2, the report as
   * written says 0, and the corrected report says 2.
   */
  lemma TangentAverageLost()
    ensures var c := Contact(1, WorldManifold([ZERO, ZERO], ZERO), [0.0, 0.0], [2.0, 0.0]);
      var ci := ComputeArguments(Gather(NEW_CONTACT_INFO, c, false, TANGENT_IMPULSE_FLAGS), TANGENT_IMPULSE_FLAGS);
      ci.averageTangentImpulse == Some(2.0)
      && ContactReportAsWritten(ci, true).averageTangentImpulse == Some(0.0)
      && ContactReportOf(ci, true).averageTangentImpulse == Some(2.0)
  {
    var c := Contact(1, WorldManifold([ZERO, ZERO], ZERO), [0.0, 0.0], [2.0, 0.0]);
    var g := Gather(NEW_CONTACT_INFO, c, false, TANGENT_IMPULSE_FLAGS);
    assert ImpulsesTangent in TANGENT_IMPULSE_FLAGS * TANGENT_IMPULSE_FLAGS;
    assert g.tangentImpulses == [2.0, 0.0];
  }
}
