/**
 * The destructible vehicle: atoms on a 24×24 grid, the gizmos that own
 * them, the thruster list (with eight immortal base thrusters rebuilt after
 * every loss of shape), and the cell count. Damage lowers atom hp; an atom
 * at zero and a gizmo whose atoms are all at zero are detached, and every
 * detach publishes a shape loss and rebuilds the base thrusters.
 *
 * The class also holds the client-side `receiveHit` and `explode`.
 * Published events are appended to `log`. Thruster geometry (positions from
 * the centre of mass, trigonometry) is not modelled.
 */
module Vehicles {
  import opened Util
  import opened Parts
  import Junkyards
  import opened VehicleGrid

  /** An entry of the atom table: size and hit points. */
  datatype AtomData = AtomData(w: int, h: int, hp: int)

  /** A gizmo instance of the vehicle file: model name, gfxID and the cells of its atoms. */
  datatype InstanceData = InstanceData(modelName: string, gfxID: Option<string>, angle: real, atoms: seq<(int, int)>)

  /** What the vehicle publishes. */
  datatype Event =
    | ShapeLoss(lostAtoms: seq<Atom>, lostGizmos: seq<Gizmo>)
    | ThrustersUpdate
    | AtomsLoad
    | GizmosLoad
    | Spawned
    | Killed
    | Disposed
    | ScrapSpawn(scrapAtoms: seq<Atom>)

  /** The cells an atom covers, w*h. */
  function Area(a: Atom): int
  {
    Product(a.w, a.h)
  }

  /**
   * w*h as repeated addition, so that sums of areas stay linear for the
   * solver; `ProductIsMul` shows it is the product.
   */
  function Product(w: int, h: int): int
    decreases if w < 0 then -w else w
  {
    if w == 0 then 0 else if w > 0 then Product(w - 1, h) + h else Product(w + 1, h) - h
  }

  lemma {:induction false} ProductIsMul(w: int, h: int)
    ensures Product(w, h) == w * h
    decreases if w < 0 then -w else w
  {
    if w > 0 {
      ProductIsMul(w - 1, h);
    } else if w < 0 {
      ProductIsMul(w + 1, h);
    }
  }

  /** The `reduce` of `_detachParts`: the total area of a list of atoms. */
  function AreaSum(s: seq<Atom>): int
  {
    if s == [] then 0 else AreaSum(s[..|s| - 1]) + Area(s[|s| - 1])
  }

  lemma AreaSumAppend(s: seq<Atom>, t: seq<Atom>)
    ensures AreaSum(s + t) == AreaSum(s) + AreaSum(t)
    decreases |t|
  {
    if t != [] {
      var u := s + t;
      assert u[..|u| - 1] == s + t[..|t| - 1];
      AreaSumAppend(s, t[..|t| - 1]);
    } else {
      assert s + t == s;
    }
  }

  /** The hit points of each atom, in order. */
  function HpsOf(s: seq<Atom>): (r: seq<Hp>)
    reads s`hp
    ensures |r| == |s|
    ensures forall i :: 0 <= i < |s| ==> r[i] == s[i].hp
  {
    if s == [] then [] else HpsOf(s[..|s| - 1]) + [s[|s| - 1].hp]
  }

  /** The cells an atom holds while its hp is `hp`: all of them while alive. */
  function Held(a: Atom, hp: Hp): int
  {
    if hp.Positive() then Area(a) else 0
  }

  /** The cells held by atoms `s` whose hit points are `hps`. */
  function LiveAreaOf(s: seq<Atom>, hps: seq<Hp>): int
    requires |hps| == |s|
  {
    if s == [] then 0
    else LiveAreaOf(s[..|s| - 1], hps[..|s| - 1]) + Held(s[|s| - 1], hps[|s| - 1])
  }

  /** With every atom alive, the live area is the whole area. */
  lemma {:induction false} LiveAreaAllAlive(s: seq<Atom>, hps: seq<Hp>)
    requires |hps| == |s|
    requires forall i :: 0 <= i < |hps| ==> hps[i].Positive()
    ensures LiveAreaOf(s, hps) == AreaSum(s)
  {
    if s != [] {
      LiveAreaAllAlive(s[..|s| - 1], hps[..|s| - 1]);
    }
  }

  /** Changing one atom's hit points changes the live area by that atom's share only. */
  lemma {:induction false} LiveAreaUpdate(s: seq<Atom>, hps: seq<Hp>, k: nat, v: Hp)
    requires |hps| == |s| && k < |s|
    ensures LiveAreaOf(s, hps[k := v]) == LiveAreaOf(s, hps) - Held(s[k], hps[k]) + Held(s[k], v)
  {
    var n := |s| - 1;
    if k < n {
      assert hps[k := v][..n] == hps[..n][k := v];
      LiveAreaUpdate(s[..n], hps[..n], k, v);
    } else {
      assert hps[k := v][..n] == hps[..n];
    }
  }

  /**
   * When only the atom at index `k` may have changed its hp since `hps0`,
   * the live area moves by that atom's share only.
   */
  lemma OneAtomChanged(s: seq<Atom>, hps0: seq<Hp>, k: nat)
    requires |hps0| == |s| && k < |s|
    requires forall i :: 0 <= i < |s| && i != k ==> s[i].hp == hps0[i]
    ensures LiveAreaOf(s, HpsOf(s)) == LiveAreaOf(s, hps0) - Held(s[k], hps0[k]) + Held(s[k], s[k].hp)
  {
    assert HpsOf(s) == hps0[k := s[k].hp];
    LiveAreaUpdate(s, hps0, k, s[k].hp);
  }

  /**
   * An atom's hp after `_applyDamageToAtom`: unchanged when already at zero
   * or below, otherwise lowered by the damage and clamped at zero.
   */
  function AfterDamage(hp: Hp, damage: int): (r: Hp)
    ensures !hp.Positive() ==> r == hp
    ensures hp.Infinite? ==> r == Infinite
    ensures hp.Finite? && hp.n > 0 ==> r == Finite(Max(hp.n - damage, 0))
  {
    if !hp.Positive() then hp
    else
      var h := hp.Minus(damage);
      if h.Positive() then h else Finite(0)
  }

  /** Whether the damage takes a live atom to zero, detaching it. */
  predicate Dies(hp: Hp, damage: int)
  {
    hp.Positive() && !hp.Minus(damage).Positive()
  }

  /** A damaged atom is at zero exactly when it was already, or the damage killed it. */
  lemma AfterDamageDead(hp: Hp, damage: int)
    ensures !AfterDamage(hp, damage).Positive() <==> !hp.Positive() || Dies(hp, damage)
    ensures Dies(hp, damage) ==> AfterDamage(hp, damage) == Finite(0)
  {
  }

  /** The cells an atom stops holding under a hit are its area exactly when the hit kills it. */
  lemma HeldLoss(a: Atom, hp: Hp, damage: int)
    ensures Held(a, hp) - Held(a, AfterDamage(hp, damage)) == AreaSum(if Dies(hp, damage) then [a] else [])
  {
    assert [a][..0] == [];
  }

  /** The thruster list with the base thrusters taken out, order kept. */
  function NonBase(ts: seq<Gizmo>): (r: seq<Gizmo>)
    ensures |r| <= |ts|
  {
    if ts == [] then []
    else (if ts[0].IsBaseThruster() then [] else [ts[0]]) + NonBase(ts[1..])
  }

  /** `NonBase` keeps exactly the thrusters that are not base thrusters. */
  lemma {:induction false} NonBaseMembers(ts: seq<Gizmo>)
    ensures forall t :: t in NonBase(ts) <==> t in ts && !t.IsBaseThruster()
  {
    if ts != [] {
      NonBaseMembers(ts[1..]);
      assert ts == [ts[0]] + ts[1..];
    }
  }

  /** Filtering a list with one more thruster at its end. */
  lemma NonBaseSnoc(ts: seq<Gizmo>, t: Gizmo)
    ensures NonBase(ts + [t]) == NonBase(ts) + (if t.IsBaseThruster() then [] else [t])
  {
    NonBaseSplit(ts + [t], |ts|);
    assert (ts + [t])[..|ts|] == ts;
    assert (ts + [t])[|ts|..] == [t];
    assert [t][1..] == [];
  }

  lemma NonBaseSplit(ts: seq<Gizmo>, i: nat)
    requires i <= |ts|
    ensures NonBase(ts) == NonBase(ts[..i]) + NonBase(ts[i..])
    decreases i
  {
    if i > 0 {
      NonBaseSplit(ts[1..], i - 1);
      assert ts[1..][..i - 1] == ts[..i][1..];
      assert ts[1..][i - 1..] == ts[i..];
    }
  }

  /**
   * One step of `clearBaseThrusters`' splice loop: with the first `j`
   * thrusters filtered, the next one sits at position `i`, and removing it
   * when it is a base thruster, or stepping past it otherwise, filters one
   * more.
   */
  lemma SpliceStep(all: seq<Gizmo>, j: nat, ts: seq<Gizmo>, i: nat)
    requires j < |all| && ts == NonBase(all[..j]) + all[j..] && i == |NonBase(all[..j])|
    ensures i < |ts| && ts[i] == all[j]
    ensures all[j].IsBaseThruster() ==>
      ts[..i] + ts[i + 1..] == NonBase(all[..j + 1]) + all[j + 1..] && i == |NonBase(all[..j + 1])|
    ensures !all[j].IsBaseThruster() ==>
      ts == NonBase(all[..j + 1]) + all[j + 1..] && i + 1 == |NonBase(all[..j + 1])|
  {
    NonBaseSnoc(all[..j], all[j]);
    assert all[..j + 1] == all[..j] + [all[j]];
    assert all[j..] == [all[j]] + all[j + 1..];
    if all[j].IsBaseThruster() {
      assert ts[..i] == NonBase(all[..j]);
      assert ts[i + 1..] == all[j + 1..];
    }
  }

  /**
   * `n` base thrusters were set up after `t0`/`g0`: the gizmo list gained
   * them at its end and the thruster list is `t0` followed by them. Each is
   * attached, owns no atom, has the given force and its own index as key.
   */
  ghost predicate BaseAdded(t0: seq<Gizmo>, g0: seq<Gizmo>, t: seq<Gizmo>, g: seq<Gizmo>, force: real, n: nat)
    reads g`key, g`isAttached, g`force, g`atoms
  {
    |g| == |g0| + n
    && g[..|g0|] == g0
    && t == t0 + g[|g0|..]
    && NewBaseThrusters(g, |g0|, force)
  }

  /** Every gizmo from index `from` on is a fresh base thruster as `setupThruster` leaves it. */
  ghost predicate NewBaseThrusters(g: seq<Gizmo>, from: nat, force: real)
    reads g`key, g`isAttached, g`force, g`atoms
  {
    forall k :: from <= k < |g| ==> BaseThrusterAt(g[k], k, force)
  }

  /** The angles of the eight base thrusters, in the order they are set up. */
  const BaseAngles: seq<real> := [Pi, Pi / 2.0, Pi, 3.0 * Pi / 2.0, 0.0, Pi / 2.0, 0.0, 3.0 * Pi / 2.0]

  /** `x` is a base thruster as `setupThruster` leaves it, with the given key. */
  ghost predicate BaseThrusterAt(x: Gizmo, key: int, force: real)
    reads x`key, x`isAttached, x`force, x`atoms
  {
    x.IsBaseThruster() && x.key == key && x.isAttached && x.force == Some(force) && x.atoms == []
  }

  /**
   * The base thrusters `made` so far were appended to both lists, in order,
   * each keyed by its index in the gizmo list.
   */
  ghost predicate BaseMade(t0: seq<Gizmo>, g0: seq<Gizmo>, made: seq<Gizmo>, t: seq<Gizmo>, g: seq<Gizmo>, force: real)
    reads made`key, made`isAttached, made`force, made`atoms
  {
    t == t0 + made && g == g0 + made
    && forall k :: 0 <= k < |made| ==> BaseThrusterAt(made[k], |g0| + k, force)
  }

  lemma MadeAdded(t0: seq<Gizmo>, g0: seq<Gizmo>, made: seq<Gizmo>, t: seq<Gizmo>, g: seq<Gizmo>, force: real)
    requires BaseMade(t0, g0, made, t, g, force)
    ensures BaseAdded(t0, g0, t, g, force, |made|)
  {
    assert g[..|g0|] == g0;
    assert g[|g0|..] == made;
    forall k | |g0| <= k < |g|
      ensures BaseThrusterAt(g[k], k, force)
    {
      assert g[k] == made[k - |g0|];
    }
  }

  /** A base thruster never dies, so a rebuild adds nothing that can be detached. */
  lemma BaseAddedNotDead(t0: seq<Gizmo>, g0: seq<Gizmo>, t: seq<Gizmo>, g: seq<Gizmo>, force: real, n: nat)
    requires BaseAdded(t0, g0, t, g, force, n)
    ensures forall k :: |g0| <= k < |g| ==> !g[k].IsDead() && g[k] in t
  {
    forall k | |g0| <= k < |g|
      ensures g[k] in t
    {
      assert t[|t0| + k - |g0|] == g[k];
    }
  }

  /**
   * What one `_applyDamageToAtom` call of a batch did: whether its atom was
   * still alive (otherwise the call returns at once) and which atoms and
   * gizmos it detached.
   */
  datatype Step = Step(alive: bool, atoms: seq<Atom>, gizmos: seq<Gizmo>)

  function StepAtoms(steps: seq<Step>): seq<Atom>
  {
    if steps == [] then [] else StepAtoms(steps[..|steps| - 1]) + steps[|steps| - 1].atoms
  }

  function StepGizmos(steps: seq<Step>): seq<Gizmo>
  {
    if steps == [] then [] else StepGizmos(steps[..|steps| - 1]) + steps[|steps| - 1].gizmos
  }

  /**
   * The cells a batch takes off `cellCount` when every call appends to the
   * same two lists, which start as `da` and `dg`: each live call that finds
   * the lists non-empty runs `_detachParts` on everything they hold so far.
   */
  function SharedLoss(da: seq<Atom>, dg: seq<Gizmo>, steps: seq<Step>): int
  {
    if steps == [] then 0
    else
      var accA := da + StepAtoms(steps);
      var accG := dg + StepGizmos(steps);
      SharedLoss(da, dg, steps[..|steps| - 1])
        + (if steps[|steps| - 1].alive && (accA != [] || accG != []) then AreaSum(accA) else 0)
  }

  /**
   * What a batch publishes when every call appends to the same two lists:
   * each live call that finds the lists non-empty announces the loss of
   * everything they hold so far, then the thruster update.
   */
  function SharedEvents(da: seq<Atom>, dg: seq<Gizmo>, steps: seq<Step>): seq<Event>
  {
    if steps == [] then []
    else
      var accA := da + StepAtoms(steps);
      var accG := dg + StepGizmos(steps);
      SharedEvents(da, dg, steps[..|steps| - 1])
        + (if steps[|steps| - 1].alive && (accA != [] || accG != []) then [ShapeLoss(accA, accG), ThrustersUpdate] else [])
  }

  /** One more call of the batch: its detachments go at the end of the shared lists. */
  lemma StepsSnoc(da: seq<Atom>, dg: seq<Gizmo>, prev: seq<Step>, step: Step)
    ensures StepAtoms(prev + [step]) == StepAtoms(prev) + step.atoms
    ensures StepGizmos(prev + [step]) == StepGizmos(prev) + step.gizmos
    ensures var accA := da + StepAtoms(prev) + step.atoms;
      var accG := dg + StepGizmos(prev) + step.gizmos;
      var ran := step.alive && (accA != [] || accG != []);
      SharedLoss(da, dg, prev + [step]) == SharedLoss(da, dg, prev) + (if ran then AreaSum(accA) else 0)
      && SharedEvents(da, dg, prev + [step])
         == SharedEvents(da, dg, prev) + (if ran then [ShapeLoss(accA, accG), ThrustersUpdate] else [])
  {
    var s := prev + [step];
    assert s[..|s| - 1] == prev;
    assert da + StepAtoms(s) == da + StepAtoms(prev) + step.atoms;
    assert dg + StepGizmos(s) == dg + StepGizmos(prev) + step.gizmos;
  }

  /**
   * The bookkeeping of one more call of a shared batch: the lists it
   * returns are the shared lists extended by its detachments, and what it
   * takes off the count and publishes is the batch's next term.
   */
  lemma SharedStep(da: seq<Atom>, dg: seq<Gizmo>, steps: seq<Step>, step: Step, na: seq<Atom>, ng: seq<Gizmo>)
    requires WellFormed(steps) && (step.atoms != [] ==> step.alive)
    requires na == da + StepAtoms(steps) + step.atoms && ng == dg + StepGizmos(steps) + step.gizmos
    ensures na == da + StepAtoms(steps + [step]) && ng == dg + StepGizmos(steps + [step])
    ensures WellFormed(steps + [step])
    ensures var ran := step.alive && (na != [] || ng != []);
      SharedLoss(da, dg, steps + [step]) == SharedLoss(da, dg, steps) + (if ran then AreaSum(na) else 0)
      && SharedEvents(da, dg, steps + [step]) == SharedEvents(da, dg, steps) + (if ran then [ShapeLoss(na, ng), ThrustersUpdate] else [])
  {
    StepsSnoc(da, dg, steps, step);
    assert forall j :: 0 <= j < |steps| ==> (steps + [step])[j] == steps[j];
  }

  /** A call detaches atoms only when its atom was still alive. */
  predicate WellFormed(steps: seq<Step>)
  {
    forall i :: 0 <= i < |steps| ==> steps[i].atoms != [] ==> steps[i].alive
  }

  /** No live call of the batch comes after a call that detached an atom. */
  predicate NoLiveAfterLoss(steps: seq<Step>)
  {
    forall i :: 0 <= i < |steps| && steps[i].alive ==> StepAtoms(steps[..i]) == []
  }

  /** Atoms of positive area add up to a positive total, zero only for no atoms. */
  lemma {:induction false} AreaSumPositive(s: seq<Atom>)
    requires forall a :: a in s ==> Area(a) > 0
    ensures AreaSum(s) >= 0
    ensures AreaSum(s) == 0 <==> s == []
  {
    if s != [] {
      AreaSumPositive(s[..|s| - 1]);
      assert s[|s| - 1] in s;
    }
  }

  /**
   * The shared lists never take off fewer cells than the atoms detached
   * cover, and take off exactly those cells only when no live call comes
   * after the first detached atom: every such call subtracts the atoms
   * detached before it once more.
   */
  lemma {:induction false} SharedLossExcess(steps: seq<Step>)
    requires WellFormed(steps)
    requires forall a :: a in StepAtoms(steps) ==> Area(a) > 0
    ensures SharedLoss([], [], steps) >= AreaSum(StepAtoms(steps))
    ensures SharedLoss([], [], steps) == AreaSum(StepAtoms(steps)) <==> NoLiveAfterLoss(steps)
  {
    if steps != [] {
      var p := steps[..|steps| - 1];
      var s := steps[|steps| - 1];
      assert steps == p + [s];
      StepsSnoc([], [], p, s);
      assert [] + StepAtoms(p) + s.atoms == StepAtoms(steps);
      assert forall i :: 0 <= i < |p| ==> p[i] == steps[i];
      SharedLossExcess(p);
      AreaSumAppend(StepAtoms(p), s.atoms);
      AreaSumPositive(StepAtoms(p));
      AreaSumPositive(s.atoms);
      assert forall i :: 0 <= i < |p| ==> steps[..i] == p[..i];
      assert steps[..|p|] == p;
    }
  }

  /**
   * One atom dies on the first hit, the second hit detaches nothing: the
   * shared lists take the first atom's cells off twice, where exactly its
   * own cells went.
   */
  lemma SharedListsOverCount(a: Atom)
    ensures var steps := [Step(true, [a], []), Step(true, [], [])];
      SharedLoss([], [], steps) == 2 * Area(a) && AreaSum(StepAtoms(steps)) == Area(a)
  {
    var steps := [Step(true, [a], []), Step(true, [], [])];
    var first := steps[..1];
    assert first == [Step(true, [a], [])];
    assert first[..0] == [];
    assert StepAtoms(first) == [a];
    assert StepGizmos(first) == [];
    assert StepAtoms(steps) == [a];
    assert StepGizmos(steps) == [];
    assert [a][..0] == [];
    assert AreaSum([a]) == Area(a);
    assert SharedLoss([], [], first) == Area(a);
  }

  /**
   * The dead-gizmo branch of `_applyDamageToAtom`: mark the gizmo detached
   * and zero its live atoms. It only runs on a dead gizmo, so no atom is
   * live and the list it returns is empty.
   */
  method DetachGizmo(g: Gizmo) returns (pushed: seq<Atom>)
    requires forall b :: b in g.atoms ==> !b.hp.Positive()
    modifies g`isAttached, g.atoms`hp
    ensures !g.isAttached && pushed == []
    ensures forall b :: b in g.atoms ==> b.hp == old(b.hp)
  {
    g.isAttached := false;
    pushed := ZeroLiveAtoms(g.atoms);
  }

  /**
   * The `forEach` of a killed gizmo: every atom still above zero hp is set to
   * zero and collected.
   */
  method ZeroLiveAtoms(s: seq<Atom>) returns (pushed: seq<Atom>)
    modifies s`hp
    ensures forall a :: a in s ==> !a.hp.Positive()
    ensures forall a :: a in s && !old(a.hp).Positive() ==> a.hp == old(a.hp)
    ensures (forall a :: a in s ==> !old(a.hp).Positive()) ==> unchanged(s)
    ensures forall a :: a in s && old(a.hp).Positive() ==> a.hp == Finite(0) && a in pushed
    ensures forall a :: a in pushed ==> a in s && old(a.hp).Positive()
    ensures (forall a :: a in s ==> !old(a.hp).Positive()) ==> pushed == []
  {
    pushed := [];
    for k := 0 to |s|
      invariant forall a :: a in s[..k] ==> !a.hp.Positive()
      invariant forall a :: a in s && a !in s[..k] ==> a.hp == old(a.hp)
      invariant forall a :: a in s && !old(a.hp).Positive() ==> a.hp == old(a.hp)
      invariant forall a :: a in s[..k] && old(a.hp).Positive() ==> a.hp == Finite(0) && a in pushed
      invariant forall a :: a in pushed ==> a in s[..k] && old(a.hp).Positive()
      invariant (forall a :: a in s ==> !old(a.hp).Positive()) ==> pushed == []
    {
      assert s[..k + 1] == s[..k] + [s[k]];
      if s[k].hp.Positive() {
        s[k].hp := Finite(0);
        pushed := pushed + [s[k]];
      }
    }
    assert s[..|s|] == s;
  }

  /** The atoms of `s` that are alive under hit points `hps`, in order. */
  function LiveOf(s: seq<Atom>, hps: seq<Hp>): (r: seq<Atom>)
    requires |hps| == |s|
    ensures forall a :: a in r ==> a in s
  {
    if s == [] then []
    else
      var n := |s| - 1;
      LiveOf(s[..n], hps[..n]) + (if hps[n].Positive() then [s[n]] else [])
  }

  /** An atom of `s` is among the live ones when its hit points are above zero. */
  lemma {:induction false} LiveOfMembers(s: seq<Atom>, hps: seq<Hp>, k: nat)
    requires |hps| == |s| && k < |s| && hps[k].Positive()
    ensures s[k] in LiveOf(s, hps)
  {
    var n := |s| - 1;
    if k < n {
      LiveOfMembers(s[..n], hps[..n], k);
    }
  }

  /** The live atoms together cover exactly the live area. */
  lemma {:induction false} LiveOfArea(s: seq<Atom>, hps: seq<Hp>)
    requires |hps| == |s|
    ensures AreaSum(LiveOf(s, hps)) == LiveAreaOf(s, hps)
  {
    if s != [] {
      var n := |s| - 1;
      var last := if hps[n].Positive() then [s[n]] else [];
      LiveOfArea(s[..n], hps[..n]);
      AreaSumAppend(LiveOf(s[..n], hps[..n]), last);
      assert AreaSum(last) == Held(s[n], hps[n]) by {
        assert [s[n]][..0] == [];
      }
    }
  }

  /** An atom's hp after `explode` zeroes the live ones. */
  function Zeroed(hp: Hp): (r: Hp)
    ensures !r.Positive()
    ensures !hp.Positive() ==> r == hp
  {
    if hp.Positive() then Finite(0) else hp
  }

  /**
   * The first loop of the client's `explode`: every live atom is set to
   * zero and collected, in order.
   */
  method ZeroAtoms(s: seq<Atom>) returns (remaining: seq<Atom>)
    requires Distinct(s)
    modifies s`hp
    ensures remaining == LiveOf(s, old(HpsOf(s)))
    ensures forall k :: 0 <= k < |s| ==> s[k].hp == Zeroed(old(s[k].hp))
  {
    ghost var hps0 := HpsOf(s);
    remaining := [];
    for i := 0 to |s|
      invariant remaining == LiveOf(s[..i], hps0[..i])
      invariant forall k :: 0 <= k < i ==> s[k].hp == Zeroed(hps0[k])
      invariant forall k :: i <= k < |s| ==> s[k].hp == hps0[k]
    {
      assert s[..i + 1][..i] == s[..i] && hps0[..i + 1][..i] == hps0[..i];
      if s[i].hp.Positive() {
        s[i].hp := Finite(0);
        remaining := remaining + [s[i]];
      }
    }
    assert s[..|s|] == s && hps0[..|s|] == hps0;
  }

  /**
   * The second loop of the client's `explode`: every attached gizmo is
   * detached and collected (a gizmo listed twice is collected once).
   */
  method DetachAll(gs: seq<Gizmo>) returns (detached: seq<Gizmo>)
    modifies gs`isAttached
    ensures forall g :: g in gs ==> !g.isAttached
    ensures forall g :: g in detached <==> g in gs && old(g.isAttached)
  {
    detached := [];
    for i := 0 to |gs|
      invariant forall k :: 0 <= k < i ==> !gs[k].isAttached
      invariant forall g :: g in detached <==> g in gs[..i] && old(g.isAttached)
      invariant forall g :: g in gs && g !in gs[..i] ==> g.isAttached == old(g.isAttached)
    {
      assert gs[..i + 1] == gs[..i] + [gs[i]];
      if gs[i].isAttached {
        gs[i].isAttached := false;
        detached := detached + [gs[i]];
      }
    }
    assert gs[..|gs|] == gs;
  }

  /**
   * Atom `a` is the one `loadFromData` builds for placement `p` (an index
   * of the id array and the id there): column index mod 24, row index div
   * 24, the id as gfxID, and the size from the atom table.
   */
  predicate PlacedAs(a: Atom, p: (int, int), table: map<int, AtomData>)
  {
    p.1 in table
    && a.i == p.0 % AtomGridSize && a.j == p.0 / AtomGridSize && a.gfxID == p.1
    && a.w == table[p.1].w && a.h == table[p.1].h
  }

  /** A new atom: full health from its table entry, and no gizmo. */
  ghost predicate Pristine(a: Atom, table: map<int, AtomData>)
    reads a`gizmo, a`maxHp, a`hp
  {
    a.gfxID in table && a.maxHp == Finite(table[a.gfxID].hp) && a.hp == a.maxHp && a.gizmo == null
  }

  /** The atoms `s` are the new atoms for placements `made`, in order. */
  ghost predicate NewAtoms(s: seq<Atom>, made: seq<(int, int)>, table: map<int, AtomData>)
    reads s`gizmo, s`maxHp, s`hp
  {
    |s| == |made| && forall k :: 0 <= k < |s| ==> PlacedAs(s[k], made[k], table) && Pristine(s[k], table)
  }

  /** One more new atom, for one more placement. */
  lemma NewAtomsSnoc(s: seq<Atom>, made: seq<(int, int)>, table: map<int, AtomData>, a: Atom, p: (int, int))
    requires NewAtoms(s, made, table) && PlacedAs(a, p, table) && Pristine(a, table)
    ensures NewAtoms(s + [a], made + [p], table)
  {
  }

  lemma AreaSumSnoc(s: seq<Atom>, a: Atom)
    ensures AreaSum(s + [a]) == AreaSum(s) + Area(a)
  {
    assert (s + [a])[..|s|] == s;
  }

  /**
   * How the `switch` of `loadFromData` ends for an instance of model
   * `name`: a missing catalog entry is a TypeError on its `type`; a core
   * passes the core checks; a thruster always passes; a weapon reuses the
   * gizmo of the previous instance, a TypeError when there is none; any
   * other type throws.
   */
  function TypeOutcome(catalog: map<string, Junkyards.GizmoData>, name: string, hasPrev: bool): (out: Outcome)
    ensures name !in catalog ==> out == Fail("TypeError")
    ensures out == Pass <==>
      (name in catalog
       && (catalog[name].kind == "core" || catalog[name].kind == "thruster" || catalog[name].kind == "weapon")
       && (catalog[name].kind == "core" ==> catalog[name].baseForce.Some? && catalog[name].baseForce.value != 0.0)
       && (catalog[name].kind == "weapon" ==> hasPrev))
  {
    if name !in catalog then Fail("TypeError")
    else
      var kind := catalog[name].kind;
      if kind == "core" then CoreCheck(catalog[name].baseForce)
      else if kind == "thruster" then Pass
      else if kind == "weapon" then (if hasPrev then Pass else Fail("TypeError"))
      else Fail("Unexpected type in vehicle JSON: " + kind)
  }

  /** Whether the instance's model is a core in the catalog. */
  predicate IsCoreModel(catalog: map<string, Junkyards.GizmoData>, name: string)
  {
    name in catalog && catalog[name].kind == "core"
  }

  class VehicleModel {
    /** One entry per atom. */
    var atoms: seq<Atom>
    /** The spatial hash: cell index i + j*24 to the atom covering it. */
    var cells: map<int, Atom>
    var gizmos: seq<Gizmo>
    var thrusters: seq<Gizmo>
    var cellCount: int
    var core: Gizmo?
    var isAlive: bool
    var isLoaded: bool
    /** Read by `receiveHit`; nothing in the game sets it. */
    var isDying: bool
    var log: seq<Event>

    /**
     * No atom is listed twice, and the ownership links stay inside the
     * vehicle: the spatial hash names
     * the vehicle's atoms, an atom's gizmo is one of the vehicle's gizmos, a
     * gizmo's atoms are the vehicle's atoms, and the core is a checked core
     * gizmo of the vehicle.
     */
    ghost predicate Valid()
      reads this`cells, this`atoms, this`gizmos, this`core, atoms`gizmo, gizmos`atoms, gizmos`baseForce
    {
      Distinct(atoms)
      && (forall c :: c in cells ==> cells[c] in atoms)
      && (forall a :: a in atoms && a.gizmo != null ==> a.gizmo in gizmos)
      && (forall g, b :: g in gizmos && b in g.atoms ==> b in atoms)
      && (core != null ==> core in gizmos && core.kind == CoreKind && CoreCheck(core.baseForce) == Pass)
    }

    /**
     * Appending base thrusters, which own no atoms, to a valid vehicle keeps
     * it valid.
     */
    lemma ValidAfterSetup(g0: seq<Gizmo>, t0: seq<Gizmo>, force: real)
      requires Distinct(atoms) && (forall c :: c in cells ==> cells[c] in atoms)
      requires forall a :: a in atoms && a.gizmo != null ==> a.gizmo in g0
      requires forall g, b :: g in g0 && b in g.atoms ==> b in atoms
      requires core != null ==> core in g0 && core.kind == CoreKind && CoreCheck(core.baseForce) == Pass
      requires BaseAdded(t0, g0, thrusters, gizmos, force, 8)
      ensures Valid()
    {
      forall g, b | g in gizmos && b in g.atoms
        ensures b in atoms
      {
        var k :| 0 <= k < |gizmos| && gizmos[k] == g;
        if k < |g0| {
          assert g == gizmos[..|g0|][k];
        }
      }
      forall g | g in g0
        ensures g in gizmos
      {
        var k :| 0 <= k < |g0| && g0[k] == g;
        assert gizmos[..|g0|][k] == g;
      }
    }

    constructor ()
      ensures Valid()
      ensures atoms == [] && cells == map[] && gizmos == [] && thrusters == [] && cellCount == 0
      ensures core == null && !isAlive && !isLoaded && !isDying && log == []
    {
      atoms := [];
      cells := map[];
      gizmos := [];
      thrusters := [];
      cellCount := 0;
      core := null;
      isAlive := false;
      isLoaded := false;
      isDying := false;
      log := [];
    }

    /** `getAtom`: the atom covering cell (i, j), or undefined. */
    function GetAtom(i: int, j: int): (r: Option<Atom>)
      reads this`cells
      ensures r.Some? <==> CellIndex(i, j) in cells
      ensures r.Some? ==> r.value == cells[CellIndex(i, j)]
    {
      var idx := i + j * AtomGridSize;
      if idx in cells then Some(cells[idx]) else None
    }

    /** `addGizmo`: the gizmo's key becomes its index in `gizmos`. */
    method AddGizmo(g: Gizmo)
      modifies this`gizmos, g`key
      ensures gizmos == old(gizmos) + [g] && g.key == |old(gizmos)|
    {
      g.key := |gizmos|;
      gizmos := gizmos + [g];
    }

    /** `clearBaseThrusters`: splice every base thruster out of `thrusters`. */
    method ClearBaseThrusters()
      modifies this`thrusters
      ensures thrusters == NonBase(old(thrusters))
      ensures forall j :: 0 <= j < |thrusters| ==> thrusters[j] in old(thrusters)
    {
      var ts := thrusters;
      ghost var all := thrusters;
      var i := 0;
      ghost var j := 0;
      while i < |ts|
        invariant 0 <= j <= |all|
        invariant ts == NonBase(all[..j]) + all[j..]
        invariant i == |NonBase(all[..j])|
        decreases |ts| - i
      {
        SpliceStep(all, j, ts, i);
        if ts[i].IsBaseThruster() {
          ts := ts[..i] + ts[i + 1..];
        } else {
          i := i + 1;
        }
        j := j + 1;
      }
      assert all[..j] == all;
      thrusters := ts;
      NonBaseMembers(all);
    }

    /** `setupThruster`: one attached base thruster with the given force, pushed and added. */
    method SetupThruster(force: real, angle: real, ghost t0: seq<Gizmo>, ghost g0: seq<Gizmo>, ghost made: seq<Gizmo>)
      returns (ghost g: Gizmo)
      requires BaseMade(t0, g0, made, thrusters, gizmos, force)
      modifies this`thrusters, this`gizmos
      ensures BaseMade(t0, g0, made + [g], thrusters, gizmos, force) && fresh(g)
    {
      var t := new Gizmo(BaseThrusterKind, BaseThrusterName, BaseThrusterData, None, angle);
      t.isAttached := true;
      t.force := Some(force);
      thrusters := thrusters + [t];
      AddGizmo(t);
      g := t;
      assert BaseThrusterAt(g, |g0| + |made|, force);
    }

    /**
     * `setupBaseThrusters`: eight base thrusters, each with half the core's
     * base force (two of them push in each direction). The eight
     * `setupThruster` calls are run as a loop over their angles, in order.
     */
    method SetupBaseThrusters() returns (ghost force: real)
      requires Valid() && core != null && core.baseForce.Some?
      modifies this`thrusters, this`gizmos
      ensures Valid()
      ensures force == old(core.baseForce.value) / 2.0
      ensures BaseAdded(old(thrusters), old(gizmos), thrusters, gizmos, force, 8)
      ensures forall j :: 0 <= j < |thrusters| ==> thrusters[j] in old(thrusters) || fresh(thrusters[j])
      ensures forall x :: x in gizmos && x !in old(gizmos) ==> fresh(x)
    {
      var f := core.baseForce.value / 2.0;
      force := f;
      ghost var made := [];
      for i := 0 to |BaseAngles|
        invariant BaseMade(old(thrusters), old(gizmos), made, thrusters, gizmos, f) && |made| == i
        invariant forall k :: 0 <= k < |made| ==> fresh(made[k])
      {
        ghost var g := SetupThruster(f, BaseAngles[i], old(thrusters), old(gizmos), made);
        made := made + [g];
      }
      MadeAdded(old(thrusters), old(gizmos), made, thrusters, gizmos, force);
      ValidAfterSetup(old(gizmos), old(thrusters), force);
      forall j | |old(thrusters)| <= j < |thrusters|
        ensures fresh(thrusters[j])
      {
        assert thrusters[j] == made[j - |old(thrusters)|];
      }
      forall x | x in gizmos && x !in old(gizmos)
        ensures fresh(x)
      {
        var j :| 0 <= j < |gizmos| && gizmos[j] == x;
        assert x == made[j - |old(gizmos)|];
      }
    }

    /**
     * `updateThrusters`: every thruster's torque is recomputed about `com`,
     * the physics body's local centre of mass.
     */
    method UpdateThrusters(com: Vec)
      modifies thrusters`torque
      ensures forall t :: t in thrusters ==> t.torque == Cross(Sub(t.localPos, com), t.localForce)
    {
      for i := 0 to |thrusters|
        invariant forall k :: 0 <= k < i ==> thrusters[k].torque == Cross(Sub(thrusters[k].localPos, com), thrusters[k].localForce)
      {
        var _ := thrusters[i].ComputeTorque(com);
      }
    }

    /**
     * `_detachParts`: take the detached atoms' cells off the count, publish
     * the shape loss, rebuild the base thrusters, recompute every
     * thruster's torque about `com` and publish the update.
     */
    method DetachParts(da: seq<Atom>, dg: seq<Gizmo>, com: Vec)
      requires Valid() && core != null
      modifies this`cellCount, this`log, this`thrusters, this`gizmos, thrusters`torque
      ensures Valid()
      ensures cellCount == old(cellCount) - AreaSum(da)
      ensures log == old(log) + [ShapeLoss(da, dg), ThrustersUpdate]
      ensures BaseAdded(NonBase(old(thrusters)), old(gizmos), thrusters, gizmos, core.baseForce.value / 2.0, 8)
      ensures forall x :: x in gizmos && x !in old(gizmos) ==> fresh(x)
      ensures forall t :: t in thrusters ==> (t in old(thrusters) || fresh(t)) && t.torque == Cross(Sub(t.localPos, com), t.localForce)
    {
      cellCount := cellCount - AreaSum(da);
      log := log + [ShapeLoss(da, dg)];
      RebuildThrusters(com);
      log := log + [ThrustersUpdate];
    }

    /**
     * The middle of `_detachParts`: `clearBaseThrusters`,
     * `setupBaseThrusters`, then `updateThrusters` about `com`.
     */
    method RebuildThrusters(com: Vec)
      requires Valid() && core != null
      modifies this`thrusters, this`gizmos, thrusters`torque
      ensures Valid()
      ensures BaseAdded(NonBase(old(thrusters)), old(gizmos), thrusters, gizmos, core.baseForce.value / 2.0, 8)
      ensures forall x :: x in gizmos && x !in old(gizmos) ==> fresh(x)
      ensures forall t :: t in thrusters ==> (t in old(thrusters) || fresh(t)) && t.torque == Cross(Sub(t.localPos, com), t.localForce)
    {
      ClearBaseThrusters();
      ghost var force := SetupBaseThrusters();
      UpdateThrusters(com);
    }

    /**
     * The cells still held by live atoms match the cell count, and no atom
     * is listed twice.
     */
    ghost predicate Counted()
      reads this`atoms, this`cellCount, atoms`hp
    {
      cellCount == LiveAreaOf(atoms, HpsOf(atoms))
    }

    /**
     * The first part of `_applyDamageToAtom`, up to the `_detachParts` call.
     * The damage is taken off the atom's hp; at zero or below the hp is
     * clamped to 0 and the atom joins `da`. If the atom's gizmo is attached
     * and now dead, the gizmo is detached and joins `dg`.
     */
    method DamageAtom(atom: Atom, damage: int, da: seq<Atom>, dg: seq<Gizmo>)
      returns (da': seq<Atom>, dg': seq<Gizmo>)
      requires Valid() && atom in atoms && atom.hp.Positive()
      modifies atoms`hp, gizmos`isAttached
      ensures forall a :: a in atoms && a != atom ==> a.hp == old(a.hp)
      ensures atom.hp == AfterDamage(old(atom.hp), damage)
      ensures da' == da + (if Dies(old(atom.hp), damage) then [atom] else [])
      ensures var g := atom.gizmo;
        var killed := g != null && old(g.isAttached) && g.kind == ThrusterKind
          && forall b :: b in g.atoms ==> !b.hp.Positive();
        (killed ==> dg' == dg + [g] && !g.isAttached) && (!killed ==> dg' == dg)
      ensures forall g :: g in gizmos && g != atom.gizmo ==> g.isAttached == old(g.isAttached)
    {
      da', dg' := da, dg;
      atom.hp := atom.hp.Minus(damage);
      if !atom.hp.Positive() {
        atom.hp := Finite(0);
        da' := da' + [atom];
      }
      var g := atom.gizmo;
      if g != null {
        LiveCountZero(g.atoms);
      }
      if g != null && g.isAttached && g.IsDead() {
        assert g in gizmos && forall i :: 0 <= i < |g.atoms| ==> g.atoms[i] in atoms;
        var pushed := DetachGizmo(g);
        da' := da' + pushed;
        dg' := dg' + [g];
      }
    }

    /**
     * `_applyDamageToAtom`, appending to the lists `da` and `dg` (fresh
     * empty lists when the caller passes none). An atom already at zero is
     * left alone. Otherwise it takes the damage as `DamageAtom` describes
     * (the gizmo list gains at most the atom's gizmo, now detached), and if
     * either list is then non-empty, `_detachParts` runs on both lists as
     * they stand.
     */
    method ApplyDamageToAtom(atom: Atom, damage: int, da: seq<Atom>, dg: seq<Gizmo>, com: Vec)
      returns (da': seq<Atom>, dg': seq<Gizmo>, ghost step: Step)
      requires Valid() && core != null && atom in atoms
      modifies this`cellCount, this`log, this`thrusters, this`gizmos, atoms`hp, gizmos`isAttached, thrusters`torque
      ensures Valid()
      ensures forall a :: a in atoms && a != atom ==> a.hp == old(a.hp)
      ensures atom.hp == AfterDamage(old(atom.hp), damage)
      ensures step.alive == old(atom.hp).Positive()
      ensures da' == da + step.atoms && dg' == dg + step.gizmos
      ensures step.atoms == if Dies(old(atom.hp), damage) then [atom] else []
      ensures step.gizmos == [] || (step.alive && atom.gizmo != null && step.gizmos == [atom.gizmo] && !atom.gizmo.isAttached)
      ensures var ran := step.alive && (da' != [] || dg' != []);
        cellCount == old(cellCount) - (if ran then AreaSum(da') else 0)
        && log == old(log) + (if ran then [ShapeLoss(da', dg'), ThrustersUpdate] else [])
        && (ran ==> BaseAdded(NonBase(old(thrusters)), old(gizmos), thrusters, gizmos, core.baseForce.value / 2.0, 8))
        && (ran ==> forall t :: t in thrusters ==> t.torque == Cross(Sub(t.localPos, com), t.localForce))
        && (!ran ==> thrusters == old(thrusters) && gizmos == old(gizmos))
      ensures forall g :: g in gizmos ==> g in old(gizmos) || fresh(g)
      ensures forall t :: t in thrusters ==> t in old(thrusters) || fresh(t)
    {
      if !atom.hp.Positive() {
        return da, dg, Step(false, [], []);
      }
      da', dg' := DamageAtom(atom, damage, da, dg);
      step := Step(true, da'[|da|..], dg'[|dg|..]);
      if da' != [] || dg' != [] {
        DetachParts(da', dg', com);
      }
    }

    /**
     * `_applyDamageToAtoms` as written, with both destination lists shared by
     * every call: `steps` records what each call did, the lists come back
     * with every call's detachments appended, and `cellCount` drops by
     * `SharedLoss`, which counts earlier detachments again on each later call.
     */
    method ApplyDamageToAtoms(hits: seq<Atom>, damages: seq<int>, da: seq<Atom>, dg: seq<Gizmo>, com: Vec)
      returns (da': seq<Atom>, dg': seq<Gizmo>, ghost steps: seq<Step>)
      requires Valid() && core != null
      requires |damages| >= |hits| && forall a :: a in hits ==> a in atoms
      modifies this`cellCount, this`log, this`thrusters, this`gizmos, atoms`hp, gizmos`isAttached, thrusters`torque
      ensures Valid()
      ensures forall t :: t in thrusters ==> t in old(thrusters) || fresh(t)
      ensures |steps| == |hits|
      ensures da' == da + StepAtoms(steps) && dg' == dg + StepGizmos(steps)
      ensures cellCount == old(cellCount) - SharedLoss(da, dg, steps)
      ensures log == old(log) + SharedEvents(da, dg, steps)
      ensures WellFormed(steps)
      ensures forall a :: a in StepAtoms(steps) ==> a in hits && !a.hp.Positive()
    {
      da', dg', steps := da, dg, [];
      for i := 0 to |hits|
        invariant Valid()
        invariant forall g :: g in gizmos ==> g in old(gizmos) || fresh(g)
        invariant forall t :: t in thrusters ==> t in old(thrusters) || fresh(t)
        invariant |steps| == i
        invariant da' == da + StepAtoms(steps) && dg' == dg + StepGizmos(steps)
        invariant cellCount == old(cellCount) - SharedLoss(da, dg, steps)
        invariant log == old(log) + SharedEvents(da, dg, steps)
        invariant WellFormed(steps)
        invariant forall a :: a in StepAtoms(steps) ==> a in hits && !a.hp.Positive()
      {
        assert hits[i] in hits;
        assert forall j :: 0 <= j < |gizmos| ==> gizmos[j] in old(gizmos) || fresh(gizmos[j]);
        assert forall j :: 0 <= j < |thrusters| ==> thrusters[j] in old(thrusters) || fresh(thrusters[j]);
        var na, ng;
        ghost var step;
        na, ng, step := BatchCall(hits[i], damages[i], da', dg', da, dg, steps, hits, old(cellCount), old(log), com);
        steps := steps + [step];
        da', dg' := na, ng;
      }
    }

    /**
     * One call of a shared batch: `_applyDamageToAtom` on the lists the
     * batch has built so far, which keeps the batch's bookkeeping.
     */
    method BatchCall(atom: Atom, damage: int, cur: seq<Atom>, curG: seq<Gizmo>, da: seq<Atom>, dg: seq<Gizmo>,
                     ghost steps: seq<Step>, ghost hits: seq<Atom>, ghost count0: int, ghost log0: seq<Event>, com: Vec)
      returns (na: seq<Atom>, ng: seq<Gizmo>, ghost step: Step)
      requires Valid() && core != null && atom in hits && forall a :: a in hits ==> a in atoms
      requires cur == da + StepAtoms(steps) && curG == dg + StepGizmos(steps)
      requires WellFormed(steps) && forall a :: a in StepAtoms(steps) ==> a in hits && !a.hp.Positive()
      requires cellCount == count0 - SharedLoss(da, dg, steps) && log == log0 + SharedEvents(da, dg, steps)
      modifies this`cellCount, this`log, this`thrusters, this`gizmos, atoms`hp, gizmos`isAttached, thrusters`torque
      ensures Valid()
      ensures forall g :: g in gizmos ==> g in old(gizmos) || fresh(g)
      ensures forall t :: t in thrusters ==> t in old(thrusters) || fresh(t)
      ensures na == da + StepAtoms(steps + [step]) && ng == dg + StepGizmos(steps + [step])
      ensures WellFormed(steps + [step]) && forall a :: a in StepAtoms(steps + [step]) ==> a in hits && !a.hp.Positive()
      ensures cellCount == count0 - SharedLoss(da, dg, steps + [step]) && log == log0 + SharedEvents(da, dg, steps + [step])
    {
      ghost var hp0 := atom.hp;
      ghost var dead := StepAtoms(steps);
      ghost var c1, l1 := cellCount, log;
      na, ng, step := ApplyDamageToAtom(atom, damage, cur, curG, com);
      AfterDamageDead(hp0, damage);
      assert forall a :: a in dead ==> !a.hp.Positive();
      SharedStep(da, dg, steps, step, na, ng);
      ghost var loss, events := SharedLoss(da, dg, steps), SharedEvents(da, dg, steps);
      if step.alive && (na != [] || ng != []) {
        assert cellCount == c1 - AreaSum(na) && log == l1 + [ShapeLoss(na, ng), ThrustersUpdate];
        assert SharedLoss(da, dg, steps + [step]) == loss + AreaSum(na);
        assert SharedEvents(da, dg, steps + [step]) == events + [ShapeLoss(na, ng), ThrustersUpdate];
        AppendAssoc(log0, events, [ShapeLoss(na, ng), ThrustersUpdate]);
      } else {
        assert cellCount == c1 && log == l1;
        assert SharedLoss(da, dg, steps + [step]) == loss && SharedEvents(da, dg, steps + [step]) == events;
      }
    }

    /**
     * `_applyDamageToAtom` called without destination lists, so that it
     * allocates its own: `cellCount` drops by exactly the cells of the atom
     * it detaches (at most the damaged atom itself, since a gizmo it kills
     * has no live atom left), and stays the area of the live atoms.
     */
    method ApplyDamageToAtomAlone(atom: Atom, damage: int, com: Vec) returns (da: seq<Atom>, dg: seq<Gizmo>)
      requires Valid() && core != null && atom in atoms
      modifies this`cellCount, this`log, this`thrusters, this`gizmos, atoms`hp, gizmos`isAttached, thrusters`torque
      ensures Valid()
      ensures forall g :: g in gizmos ==> g in old(gizmos) || fresh(g)
      ensures forall t :: t in thrusters ==> t in old(thrusters) || fresh(t)
      ensures forall a :: a in atoms && a != atom ==> a.hp == old(a.hp)
      ensures atom.hp == AfterDamage(old(atom.hp), damage)
      ensures da == if Dies(old(atom.hp), damage) then [atom] else []
      ensures cellCount == old(cellCount) - AreaSum(da)
      ensures old(Counted()) ==> Counted()
    {
      ghost var hps0 := HpsOf(atoms);
      ghost var hp0 := atom.hp;
      ghost var k :| 0 <= k < |atoms| && atoms[k] == atom;
      assert forall j :: 0 <= j < |atoms| && j != k ==> atoms[j] != atom;
      ghost var step;
      da, dg, step := ApplyDamageToAtom(atom, damage, [], [], com);
      assert da == step.atoms;
      assert cellCount == old(cellCount) - AreaSum(da);
      HeldLoss(atom, hp0, damage);
      assert forall i :: 0 <= i < |atoms| && i != k ==> atoms[i].hp == hps0[i];
      OneAtomChanged(atoms, hps0, k);
    }

    /**
     * `_applyDamageToAtoms` with a fresh pair of lists for every call, the
     * detachments then appended to the result: `cellCount` drops by exactly
     * the cells of the atoms detached, and stays equal to the cells of the
     * live atoms when it was so before.
     */
    method ApplyDamageToAtomsFresh(hits: seq<Atom>, damages: seq<int>, com: Vec)
      returns (da: seq<Atom>, dg: seq<Gizmo>)
      requires Valid() && core != null
      requires |damages| >= |hits| && forall a :: a in hits ==> a in atoms
      modifies this`cellCount, this`log, this`thrusters, this`gizmos, atoms`hp, gizmos`isAttached, thrusters`torque
      ensures Valid()
      ensures cellCount == old(cellCount) - AreaSum(da)
      ensures old(Counted()) ==> Counted()
      ensures forall a :: a in da ==> a in old(atoms) && !a.hp.Positive()
    {
      da, dg := [], [];
      for i := 0 to |hits|
        invariant Valid()
        invariant forall g :: g in gizmos ==> g in old(gizmos) || fresh(g)
        invariant forall t :: t in thrusters ==> t in old(thrusters) || fresh(t)
        invariant cellCount == old(cellCount) - AreaSum(da)
        invariant old(Counted()) ==> Counted()
        invariant forall a :: a in da ==> a in old(atoms) && !a.hp.Positive()
      {
        assert hits[i] in hits;
        assert forall j :: 0 <= j < |gizmos| ==> gizmos[j] in old(gizmos) || fresh(gizmos[j]);
        assert forall j :: 0 <= j < |thrusters| ==> thrusters[j] in old(thrusters) || fresh(thrusters[j]);
        var na, ng := ApplyDamageToAtomAlone(hits[i], damages[i], com);
        AreaSumAppend(da, na);
        da, dg := da + na, dg + ng;
      }
    }

    /** `clearData`: drop every atom, gizmo and thruster, the core and the hash. */
    method ClearData()
      modifies this`atoms, this`cells, this`gizmos, this`thrusters, this`core, this`cellCount, this`isLoaded
      ensures Valid()
      ensures atoms == [] && cells == map[] && gizmos == [] && thrusters == []
      ensures core == null && cellCount == 0 && !isLoaded
    {
      atoms := [];
      cells := map[];
      gizmos := [];
      thrusters := [];
      core := null;
      cellCount := 0;
      isLoaded := false;
    }

    /**
     * `spawn`: every atom back to its maximum hp, the count back to the
     * whole area, every gizmo reattached, the vehicle alive, and every
     * thruster's torque recomputed about `com`. When every atom's maximum
     * is above zero the count is then the live area.
     */
    method Spawn(com: Vec)
      modifies this`cellCount, this`isAlive, this`log, atoms`hp, gizmos`isAttached, thrusters`torque
      ensures forall a :: a in atoms ==> a.hp == a.maxHp
      ensures forall g :: g in gizmos ==> g.isAttached
      ensures cellCount == AreaSum(atoms)
      ensures isAlive && log == old(log) + [Spawned]
      ensures forall t :: t in thrusters ==> t.torque == Cross(Sub(t.localPos, com), t.localForce)
      ensures (forall a :: a in atoms ==> a.maxHp.Positive()) ==> Counted()
    {
      RestoreAtoms();
      ghost var hps, count := HpsOf(atoms), cellCount;
      Revive(com);
      assert HpsOf(atoms) == hps && cellCount == count;
    }

    /**
     * The rest of `spawn`: every gizmo reattached, the vehicle alive and
     * announced, and every thruster's torque recomputed about `com`.
     */
    method Revive(com: Vec)
      modifies this`isAlive, this`log, gizmos`isAttached, thrusters`torque
      ensures forall g :: g in gizmos ==> g.isAttached
      ensures isAlive && log == old(log) + [Spawned]
      ensures forall t :: t in thrusters ==> t.torque == Cross(Sub(t.localPos, com), t.localForce)
    {
      ReattachGizmos();
      isAlive := true;
      log := log + [Spawned];
      UpdateThrusters(com);
    }

    /** The gizmo loop of `spawn`: every gizmo reattached. */
    method ReattachGizmos()
      modifies gizmos`isAttached
      ensures forall g :: g in gizmos ==> g.isAttached
    {
      for i := 0 to |gizmos|
        invariant forall k :: 0 <= k < i ==> gizmos[k].isAttached
      {
        gizmos[i].isAttached := true;
      }
    }

    /**
     * The atom loop of `spawn`: every atom back to its maximum hp and the
     * count back to the whole area, which is the live area when every
     * maximum is above zero.
     */
    method RestoreAtoms()
      modifies this`cellCount, atoms`hp
      ensures forall a :: a in atoms ==> a.hp == a.maxHp
      ensures cellCount == AreaSum(atoms)
      ensures (forall a :: a in atoms ==> a.maxHp.Positive()) ==> Counted()
    {
      cellCount := 0;
      for i := 0 to |atoms|
        invariant forall k :: 0 <= k < i ==> atoms[k].hp == atoms[k].maxHp
        invariant cellCount == AreaSum(atoms[..i])
      {
        var atom := atoms[i];
        atom.hp := atom.maxHp;
        cellCount := cellCount + Area(atom);
        assert atoms[..i + 1][..i] == atoms[..i];
      }
      assert atoms[..|atoms|] == atoms;
      if forall a :: a in atoms ==> a.maxHp.Positive() {
        LiveAreaAllAlive(atoms, HpsOf(atoms));
      }
    }

    /** `kill`: the vehicle is no longer alive. */
    method Kill()
      modifies this`isAlive, this`log
      ensures !isAlive && log == old(log) + [Killed]
    {
      isAlive := false;
      log := log + [Killed];
    }

    /** `dispose`: announce the permanent deletion. */
    method Dispose()
      modifies this`log
      ensures log == old(log) + [Disposed]
    {
      log := log + [Disposed];
    }

    /**
     * The scrap half of the client's `explode`: zero every live atom and
     * detach every attached gizmo. The scrap is made from exactly the atoms
     * that were alive, in order, and covers `cellCount` cells when the count
     * was kept.
     */
    method Scrap() returns (remaining: seq<Atom>, detached: seq<Gizmo>)
      requires Valid()
      modifies this`log, atoms`hp, gizmos`isAttached
      ensures log == old(log) + [ScrapSpawn(remaining)]
      ensures remaining == LiveOf(atoms, old(HpsOf(atoms)))
      ensures forall k :: 0 <= k < |atoms| ==> atoms[k].hp == Zeroed(old(atoms[k].hp))
      ensures forall g :: g in gizmos ==> !g.isAttached
      ensures forall g :: g in detached <==> g in gizmos && old(g.isAttached)
      ensures old(Counted()) ==> AreaSum(remaining) == cellCount
    {
      ghost var hps0 := HpsOf(atoms);
      remaining := ZeroAtoms(atoms);
      detached := DetachAll(gizmos);
      log := log + [ScrapSpawn(remaining)];
      LiveOfArea(atoms, hps0);
    }

    /**
     * The client's `explode`: kill the vehicle and, when scrap is asked
     * for, turn it into scrap; the count is left as it was.
     */
    method Explode(spawnScrap: bool) returns (remaining: seq<Atom>, detached: seq<Gizmo>)
      requires Valid()
      modifies this`isAlive, this`log, atoms`hp, gizmos`isAttached
      ensures !isAlive && cellCount == old(cellCount)
      ensures !spawnScrap ==> remaining == [] && detached == [] && log == old(log) + [Killed]
      ensures !spawnScrap ==> unchanged(atoms) && unchanged(gizmos)
      ensures spawnScrap ==> log == old(log) + [Killed, ScrapSpawn(remaining)]
      ensures spawnScrap ==> remaining == LiveOf(atoms, old(HpsOf(atoms)))
      ensures spawnScrap ==> forall k :: 0 <= k < |atoms| ==> atoms[k].hp == Zeroed(old(atoms[k].hp))
      ensures spawnScrap ==> forall g :: g in gizmos ==> !g.isAttached
      ensures spawnScrap ==> forall g :: g in detached <==> g in gizmos && old(g.isAttached)
      ensures spawnScrap && old(Counted()) ==> AreaSum(remaining) == cellCount
    {
      // `kill`, inherited from the shared model
      isAlive := false;
      log := log + [Killed];
      remaining, detached := [], [];
      if spawnScrap {
        remaining, detached := Scrap();
      }
    }

    /**
     * The client's `receiveHit`: nothing happens to a vehicle that is dead
     * or dying, or when either list is empty. Otherwise the damage is
     * applied hit by hit with one pair of lists shared by the whole batch,
     * and scrap is spawned from every atom the batch detached. `steps`
     * records what each hit did; `SharedLossExcess` says how far the count
     * then drops below the cells the scrap covers.
     */
    method ReceiveHit(hits: seq<Atom>, damages: seq<int>, com: Vec) returns (scrap: seq<Atom>, ghost steps: seq<Step>)
      requires Valid() && (isAlive ==> core != null)
      requires damages != [] ==> |hits| <= |damages|
      requires forall a :: a in hits ==> a in atoms
      modifies this`cellCount, this`log, this`thrusters, this`gizmos, atoms`hp, gizmos`isAttached, thrusters`torque
      ensures Valid()
      ensures var skip := !old(isAlive) || old(isDying) || hits == [] || damages == [];
        (skip ==>
          steps == [] && scrap == [] && cellCount == old(cellCount) && log == old(log)
          && thrusters == old(thrusters) && gizmos == old(gizmos)
          && forall a :: a in atoms ==> a.hp == old(a.hp))
        && (!skip ==>
          |steps| == |hits| && WellFormed(steps) && scrap == StepAtoms(steps)
          && cellCount == old(cellCount) - SharedLoss([], [], steps)
          && log == old(log) + SharedEvents([], [], steps) + [ScrapSpawn(scrap)]
          && forall a :: a in scrap ==> a in hits && !a.hp.Positive())
    {
      scrap, steps := [], [];
      if !isAlive || isDying {
        return;
      }
      if hits != [] && damages != [] {
        var dg;
        scrap, dg, steps := ApplyDamageToAtoms(hits, damages, [], [], com);
        log := log + [ScrapSpawn(scrap)];
      }
    }

    /** The inner loop of the painting: atom `a` written into `h` cells of column `x` from row `j0`. */
    method PaintColumn(a: Atom, x: int, j0: int, h: int)
      modifies this`cells
      ensures cells == PaintCells(old(cells), Column(x, j0, h), a)
    {
      var y := j0;
      while y < j0 + h
        invariant if h > 0 then j0 <= y <= j0 + h else y == j0
        invariant cells == PaintCells(old(cells), Column(x, j0, y - j0), a)
        decreases j0 + h - y
      {
        var painted := Column(x, j0, y - j0);
        assert (painted + [CellIndex(x, y)])[..|painted|] == painted;
        cells := cells[CellIndex(x, y) := a];
        y := y + 1;
      }
    }

    /**
     * The nested loops of `loadFromData` writing atom `a` into every cell of
     * its w×h patch, column by column.
     */
    method PaintAtom(a: Atom)
      modifies this`cells
      ensures cells == PaintCells(old(cells), Footprint(a), a)
    {
      var x := a.i;
      while x < a.i + a.w
        invariant if a.w > 0 then a.i <= x <= a.i + a.w else x == a.i
        invariant cells == PaintCells(old(cells), Cells(a.i, a.j, x - a.i, a.h), a)
        decreases a.i + a.w - x
      {
        PaintColumn(a, x, a.j, a.h);
        PaintCellsAppend(old(cells), Cells(a.i, a.j, x - a.i, a.h), Column(x, a.j, a.h), a);
        x := x + 1;
      }
    }

    /**
     * One step of the atom loop: a new atom for id `id` at index `idx`,
     * appended to the atoms built so far (`added`, after `a0`), written into
     * the hash, and its area counted.
     */
    method AddAtomAt(idx: nat, id: int, table: map<int, AtomData>, ghost a0: seq<Atom>, ghost c0: map<int, Atom>,
                     ghost added: seq<Atom>, ghost made: seq<(int, int)>)
      returns (ghost a: Atom)
      requires id in table
      requires atoms == a0 + added && Distinct(atoms)
      requires NewAtoms(added, made, table)
      requires cells == PaintAll(c0, added) && cellCount == AreaSum(added)
      modifies this`atoms, this`cells, this`cellCount
      ensures fresh(a) && atoms == a0 + (added + [a]) && Distinct(atoms)
      ensures NewAtoms(added + [a], made + [(idx, id)], table)
      ensures cells == PaintAll(c0, added + [a]) && cellCount == AreaSum(added + [a])
    {
      var data := table[id];
      var atom := new Atom(idx % AtomGridSize, idx / AtomGridSize, id, data.w, data.h, data.hp);
      a := atom;
      atoms := atoms + [atom];
      assert forall k :: 0 <= k < |atoms| - 1 ==> atoms[k] != a;
      PaintAtom(atom);
      cellCount := cellCount + Area(atom);
      NewAtomsSnoc(added, made, table, a, (idx, id));
      AreaSumSnoc(added, a);
      PaintAllSnoc(c0, added, a);
    }

    /**
     * Appending new atoms that have no gizmo, and writing them into the
     * hash, keeps a valid vehicle valid.
     */
    lemma ValidAfterAtoms(a0: seq<Atom>, c0: map<int, Atom>, made: seq<(int, int)>, table: map<int, AtomData>)
      requires Distinct(atoms) && |a0| <= |atoms| && atoms[..|a0|] == a0
      requires forall c :: c in c0 ==> c0[c] in a0
      requires forall a :: a in a0 && a.gizmo != null ==> a.gizmo in gizmos
      requires forall g, b :: g in gizmos && b in g.atoms ==> b in a0
      requires core != null ==> core in gizmos && core.kind == CoreKind && CoreCheck(core.baseForce) == Pass
      requires NewAtoms(atoms[|a0|..], made, table)
      requires cells == PaintAll(c0, atoms[|a0|..])
      ensures Valid()
    {
      var added := atoms[|a0|..];
      PaintAllEffect(c0, added);
      assert atoms == a0 + added;
    }

    /** One pass of the atom loop: the atom for entry `idx`, when it is non-zero. */
    method LoadStep(ids: seq<int>, idx: nat, table: map<int, AtomData>, ghost a0: seq<Atom>, ghost c0: map<int, Atom>,
                    ghost added: seq<Atom>, ghost made: seq<(int, int)>)
      returns (ghost added': seq<Atom>, ghost made': seq<(int, int)>)
      requires idx < |ids| && (ids[idx] == 0 || ids[idx] in table)
      requires made == Placed(ids[..idx]) && (forall p :: p in made ==> p.1 in table)
      requires atoms == a0 + added && Distinct(atoms) && NewAtoms(added, made, table)
      requires cells == PaintAll(c0, added) && cellCount == AreaSum(added)
      modifies this`atoms, this`cells, this`cellCount
      ensures made' == Placed(ids[..idx + 1]) && (forall p :: p in made' ==> p.1 in table)
      ensures atoms == a0 + added' && Distinct(atoms) && NewAtoms(added', made', table)
      ensures cells == PaintAll(c0, added') && cellCount == AreaSum(added')
      ensures forall a :: a in added' ==> a in added || fresh(a)
    {
      var id := ids[idx];
      PlacedSnoc(ids, idx);
      added', made' := added, made;
      if id != 0 {
        ghost var a := AddAtomAt(idx, id, table, a0, c0, added, made);
        added', made' := added + [a], made + [(idx, id)];
      }
    }

    /**
     * The atom loop of `loadFromData`: one new atom per non-zero id, at
     * (index mod 24, index div 24), written into the hash, its area added to
     * a count restarted at zero. An id missing from the atom table throws a
     * TypeError at index `stop`, keeping the atoms built before it.
     */
    method LoadAtoms(ids: seq<int>, table: map<int, AtomData>) returns (out: Outcome, ghost stop: nat)
      requires Valid()
      modifies this`atoms, this`cells, this`cellCount
      ensures Valid()
      ensures stop <= |ids|
      ensures out == Pass <==> forall p :: p in Placed(ids) ==> p.1 in table
      ensures out == Pass ==> stop == |ids|
      ensures out != Pass ==> out == Fail("TypeError") && stop < |ids| && ids[stop] != 0 && ids[stop] !in table
      ensures |old(atoms)| <= |atoms| && atoms[..|old(atoms)|] == old(atoms)
      ensures NewAtoms(atoms[|old(atoms)|..], Placed(ids[..stop]), table)
      ensures forall a :: a in atoms[|old(atoms)|..] ==> fresh(a)
      ensures cells == PaintAll(old(cells), atoms[|old(atoms)|..])
      ensures cellCount == AreaSum(atoms[|old(atoms)|..])
    {
      ghost var made: seq<(int, int)> := [];
      ghost var added: seq<Atom> := [];
      cellCount := 0;
      var idx := 0;
      while idx < |ids| && (ids[idx] == 0 || ids[idx] in table)
        invariant 0 <= idx <= |ids|
        invariant made == Placed(ids[..idx])
        invariant atoms == old(atoms) + added
        invariant Distinct(atoms)
        invariant forall p :: p in made ==> p.1 in table
        invariant NewAtoms(added, made, table)
        invariant forall a :: a in added ==> fresh(a)
        invariant cells == PaintAll(old(cells), added)
        invariant cellCount == AreaSum(added)
      {
        added, made := LoadStep(ids, idx, table, old(atoms), old(cells), added, made);
        idx := idx + 1;
      }
      assert atoms[|old(atoms)|..] == added;
      ValidAfterAtoms(old(atoms), old(cells), made, table);
      if idx < |ids| {
        PlacedComplete(ids, idx);
        return Fail("TypeError"), idx;
      }
      assert ids[..|ids|] == ids;
      return Pass, |ids|;
    }

    /**
     * `addAtom` on a gizmo of the vehicle with one of its atoms: the atom
     * is appended, and claimed when it had no gizmo; the vehicle stays valid.
     */
    method ClaimAtom(g: Gizmo, a: Atom) returns (out: Outcome)
      requires Valid() && g in gizmos && a in atoms
      modifies g`atoms, a`gizmo, a`maxHp, a`hp
      ensures Valid()
      ensures g.atoms == old(g.atoms) + [a]
      ensures out == Pass <==> old(a.gizmo) == null
      ensures out == Pass ==> a.gizmo == g
      ensures out != Pass ==> out == Fail("Gizmo is already set") && a.gizmo == old(a.gizmo)
    {
      out := g.AddAtom(a);
    }

    /**
     * When the `k`-th cell's atom is one already found, the atoms the cells
     * name are not distinct.
     */
    lemma ClaimRefused(coords: seq<(int, int)>, k: nat, found: seq<Atom>, a: Atom)
      requires k < |coords| && AtomsAt(coords[..k]) == Some(found)
      requires CellIndex(coords[k].0, coords[k].1) in cells && cells[CellIndex(coords[k].0, coords[k].1)] == a
      ensures AtomsAt(coords).Some? ==> AtomsAt(coords).value[k] == a && (a in found ==> !Distinct(AtomsAt(coords).value))
    {
      if AtomsAt(coords).Some? && a in found {
        var j :| 0 <= j < |found| && found[j] == a;
        assert AtomsAt(coords[..k]).value[j] == a;
        assert coords[..k][j] == coords[j];
        assert AtomsAt(coords).value[j] == a;
      }
    }

    /**
     * The atoms the cells of a gizmo instance name, in order, or None when
     * one of the cells is empty.
     */
    function AtomsAt(coords: seq<(int, int)>): (r: Option<seq<Atom>>)
      reads this`cells
      ensures r.Some? <==> forall k :: 0 <= k < |coords| ==> CellIndex(coords[k].0, coords[k].1) in cells
      ensures r.Some? ==>
        |r.value| == |coords| && forall k :: 0 <= k < |coords| ==> r.value[k] == cells[CellIndex(coords[k].0, coords[k].1)]
    {
      if coords == [] then Some([])
      else
        var n := |coords| - 1;
        var rest := AtomsAt(coords[..n]);
        var cell := CellIndex(coords[n].0, coords[n].1);
        if rest.Some? && cell in cells then Some(rest.value + [cells[cell]]) else None
    }

    /**
     * The atom loop of a gizmo instance: each cell's atom is added to the
     * gizmo. An empty cell is a TypeError; an atom that already has a gizmo
     * (another one's, or this one's from an earlier cell) throws. So the loop
     * passes exactly when every cell holds an atom, no atom is named twice
     * and none had a gizmo; the gizmo then owns those atoms, after its own.
     */
    method AttachAtoms(g: Gizmo, coords: seq<(int, int)>) returns (out: Outcome)
      requires Valid() && g in gizmos
      modifies g`atoms, atoms`gizmo, atoms`maxHp, atoms`hp
      ensures Valid()
      ensures var found := AtomsAt(coords);
        out == Pass <==> found.Some? && Distinct(found.value) && forall a :: a in found.value ==> old(a.gizmo) == null
      ensures out == Pass ==>
        g.atoms == old(g.atoms) + AtomsAt(coords).value && forall a :: a in AtomsAt(coords).value ==> a.gizmo == g
      ensures out != Pass ==> out == Fail("TypeError") || out == Fail("Gizmo is already set")
    {
      ghost var owners := map a | a in atoms :: a.gizmo;
      ghost var found: seq<Atom> := [];
      for k := 0 to |coords|
        invariant Valid()
        invariant AtomsAt(coords[..k]) == Some(found)
        invariant g.atoms == old(g.atoms) + found && Distinct(found)
        invariant forall a :: a in found ==> a.gizmo == g && a in owners && owners[a] == null
        invariant forall a :: a in atoms && a !in found ==> a in owners && a.gizmo == owners[a]
      {
        out, found := AttachCell(g, coords, k, found, old(g.atoms), owners);
        if out.Fail? {
          return;
        }
      }
      assert coords[..|coords|] == coords;
      out := Pass;
    }

    /**
     * One turn of the atom loop of `AttachAtoms`, where `owners` holds each
     * atom's gizmo before the loop and `g0` the gizmo's atoms: the atom of
     * the `k`-th cell is claimed, or the loop stops with the error that
     * shows the cells cannot all be claimed.
     */
    method AttachCell(g: Gizmo, coords: seq<(int, int)>, k: nat, ghost found: seq<Atom>,
                      ghost g0: seq<Atom>, ghost owners: map<Atom, Gizmo?>)
      returns (out: Outcome, ghost found': seq<Atom>)
      requires Valid() && g in gizmos && k < |coords|
      requires AtomsAt(coords[..k]) == Some(found)
      requires g.atoms == g0 + found && Distinct(found)
      requires forall a :: a in found ==> a.gizmo == g && a in owners && owners[a] == null
      requires forall a :: a in atoms && a !in found ==> a in owners && a.gizmo == owners[a]
      modifies g`atoms, atoms`gizmo, atoms`maxHp, atoms`hp
      ensures Valid()
      ensures out == Pass ==>
        && AtomsAt(coords[..k + 1]) == Some(found')
        && g.atoms == g0 + found' && Distinct(found')
        && (forall a :: a in found' ==> a.gizmo == g && a in owners && owners[a] == null)
        && (forall a :: a in atoms && a !in found' ==> a in owners && a.gizmo == owners[a])
      ensures out != Pass ==>
        && (out == Fail("TypeError") || out == Fail("Gizmo is already set"))
        && !(AtomsAt(coords).Some? && Distinct(AtomsAt(coords).value)
             && forall a :: a in AtomsAt(coords).value ==> a in owners && owners[a] == null)
    {
      assert coords[..k + 1][..k] == coords[..k];
      var r := GetAtom(coords[k].0, coords[k].1);
      if r.None? {
        assert coords[..|coords|][k] == coords[k];
        return Fail("TypeError"), found;
      }
      var a := r.value;
      out := ClaimAtom(g, a);
      if out.Fail? {
        ClaimRefused(coords, k, found, a);
        return out, found;
      }
      found' := found + [a];
    }

    /**
     * The `switch` of `loadFromData`: a new core (which becomes `core` only
     * when its checks pass), a new thruster pushed onto `thrusters`, or for
     * a weapon the gizmo of the previous instance. Its outcome is
     * `TypeOutcome`.
     */
    method SelectGizmo(inst: InstanceData, catalog: map<string, Junkyards.GizmoData>, prev: Gizmo?)
      returns (g: Gizmo?, out: Outcome)
      modifies this`core, this`thrusters
      ensures out == TypeOutcome(catalog, inst.modelName, prev != null)
      ensures out != Pass ==> g == null && core == old(core) && thrusters == old(thrusters)
      ensures out == Pass ==> g != null
      ensures out == Pass && g != prev ==>
        fresh(g) && g.modelName == inst.modelName && !g.isAttached && g.atoms == [] && g.key == -1
      ensures out == Pass && IsCoreModel(catalog, inst.modelName) ==>
        g.kind == CoreKind && g != prev && core == g && thrusters == old(thrusters)
        && g.baseForce == catalog[inst.modelName].baseForce
      ensures out == Pass && inst.modelName in catalog && catalog[inst.modelName].kind == "thruster" ==>
        g.kind == ThrusterKind && g != prev && thrusters == old(thrusters) + [g] && core == old(core)
        && g.force == catalog[inst.modelName].force
      ensures inst.modelName in catalog && catalog[inst.modelName].kind == "weapon" ==>
        g == prev && core == old(core) && thrusters == old(thrusters)
    {
      if inst.modelName !in catalog {
        return null, Fail("TypeError");
      }
      var data := catalog[inst.modelName];
      if data.kind == "core" {
        var c;
        c, out := NewCore(inst.modelName, data, inst.gfxID, inst.angle);
        if out.Fail? {
          return null, out;
        }
        core := c;
        g := c;
      } else if data.kind == "thruster" {
        var t := new Gizmo(ThrusterKind, inst.modelName, data, inst.gfxID, inst.angle);
        thrusters := thrusters + [t];
        g, out := t, Pass;
      } else if data.kind == "weapon" {
        g := prev;
        out := if prev == null then Fail("TypeError") else Pass;
      } else {
        return null, Fail("Unexpected type in vehicle JSON: " + data.kind);
      }
    }

    /**
     * `gizmo.isAttached = true` and `addGizmo` in `loadFromData`: adding a
     * gizmo whose atoms are the vehicle's keeps the vehicle valid, and makes
     * it so when that gizmo is the new core.
     */
    method AttachGizmo(g: Gizmo)
      requires Distinct(atoms) && (forall c :: c in cells ==> cells[c] in atoms)
      requires forall a :: a in atoms && a.gizmo != null ==> a.gizmo in gizmos
      requires forall x, b :: x in gizmos && b in x.atoms ==> b in atoms
      requires forall b :: b in g.atoms ==> b in atoms
      requires core != null ==> (core in gizmos || core == g) && core.kind == CoreKind && CoreCheck(core.baseForce) == Pass
      modifies this`gizmos, g`isAttached, g`key
      ensures Valid()
      ensures g.isAttached && g.key == |old(gizmos)| && gizmos == old(gizmos) + [g]
    {
      g.isAttached := true;
      AddGizmo(g);
    }

    /**
     * One gizmo instance of `loadFromData`: the `switch`, then the chosen
     * gizmo is attached, added with its index as key, and given the atoms of
     * the instance's cells.
     */
    method LoadGizmo(inst: InstanceData, catalog: map<string, Junkyards.GizmoData>, prev: Gizmo?)
      returns (g: Gizmo?, out: Outcome)
      requires Valid() && (prev != null ==> prev in gizmos)
      modifies this`core, this`thrusters, this`gizmos, {prev}`isAttached, {prev}`key, {prev}`atoms
      modifies atoms`gizmo, atoms`maxHp, atoms`hp
      ensures Valid()
      ensures var t := TypeOutcome(catalog, inst.modelName, prev != null);
        (t != Pass ==> out == t && g == null && gizmos == old(gizmos) && core == old(core))
        && (t == Pass ==>
              g != null && g.isAttached && g.key == |old(gizmos)| && gizmos == old(gizmos) + [g]
              && (g != prev ==> fresh(g))
              && var found := AtomsAt(inst.atoms);
              out == Pass <==> found.Some? && Distinct(found.value) && forall a :: a in found.value ==> old(a.gizmo) == null)
      ensures core == old(core) || (IsCoreModel(catalog, inst.modelName) && core == g && g != null)
      ensures out == Pass && IsCoreModel(catalog, inst.modelName) ==> core == g
      ensures inst.modelName in catalog && catalog[inst.modelName].kind == "weapon" ==> g == prev
      ensures forall t :: t in thrusters ==> t in old(thrusters) || fresh(t)
    {
      g, out := SelectGizmo(inst, catalog, prev);
      if out.Fail? {
        return;
      }
      AttachGizmo(g);
      out := AttachAtoms(g, inst.atoms);
    }

    /**
     * The gizmo loop of `loadFromData`, the `gizmo` variable carried from
     * one instance to the next. When every instance loads, one gizmo was
     * added per instance, every type was a known one, and the vehicle has a
     * core exactly when it had one or some instance is a core.
     */
    method LoadGizmos(instances: seq<InstanceData>, catalog: map<string, Junkyards.GizmoData>)
      returns (out: Outcome)
      requires Valid()
      modifies this`core, this`thrusters, this`gizmos, atoms`gizmo, atoms`maxHp, atoms`hp
      ensures Valid()
      ensures out == Pass ==>
        |gizmos| == |old(gizmos)| + |instances| && gizmos[..|old(gizmos)|] == old(gizmos)
      ensures out == Pass ==>
        forall k :: 0 <= k < |instances| ==> TypeOutcome(catalog, instances[k].modelName, k > 0) == Pass
      ensures out == Pass ==>
        (core != null <==> old(core) != null || exists k :: 0 <= k < |instances| && IsCoreModel(catalog, instances[k].modelName))
      ensures forall t :: t in thrusters ==> t in old(thrusters) || fresh(t)
    {
      var prev: Gizmo? := null;
      out := Pass;
      for k := 0 to |instances|
        invariant Valid()
        invariant out == Pass
        invariant prev != null ==> prev in gizmos && fresh(prev)
        invariant prev != null <==> k > 0
        invariant |gizmos| == |old(gizmos)| + k && gizmos[..|old(gizmos)|] == old(gizmos)
        invariant forall j :: 0 <= j < k ==> TypeOutcome(catalog, instances[j].modelName, j > 0) == Pass
        invariant core != null ==> old(core) != null || exists j :: 0 <= j < k && IsCoreModel(catalog, instances[j].modelName)
        invariant forall j :: 0 <= j < k && IsCoreModel(catalog, instances[j].modelName) ==> core != null
        invariant old(core) != null ==> core != null
        invariant forall t :: t in thrusters ==> t in old(thrusters) || fresh(t)
      {
        var g;
        ghost var t := TypeOutcome(catalog, instances[k].modelName, k > 0);
        g, out := LoadGizmo(instances[k], catalog, prev);
        if out.Fail? {
          return;
        }
        assert t == Pass && (IsCoreModel(catalog, instances[k].modelName) ==> core != null);
        prev := g;
      }
    }

    /**
     * The end of `loadFromData`: a vehicle without a core is refused;
     * otherwise the base thrusters are set up, every thruster's torque is
     * recomputed about `com`, and the vehicle counts as loaded.
     */
    method FinishLoad(com: Vec) returns (out: Outcome)
      requires Valid()
      modifies this`thrusters, this`gizmos, this`isLoaded, this`log, thrusters`torque
      ensures Valid()
      ensures old(core) == null ==> out == Fail("Loaded vehicle has no core.") && unchanged(this)
      ensures old(core) != null ==> out == Pass && isLoaded && log == old(log) + [AtomsLoad, GizmosLoad]
      ensures old(core) != null ==>
        BaseAdded(old(thrusters), old(gizmos), thrusters, gizmos, core.baseForce.value / 2.0, 8)
      ensures old(core) != null ==> forall t :: t in thrusters ==> t.torque == Cross(Sub(t.localPos, com), t.localForce)
    {
      if core == null {
        return Fail("Loaded vehicle has no core.");
      }
      log := log + [AtomsLoad];
      ghost var force := SetupBaseThrusters();
      ghost var added := BaseAdded(old(thrusters), old(gizmos), thrusters, gizmos, force, 8);
      UpdateThrusters(com);
      assert added == BaseAdded(old(thrusters), old(gizmos), thrusters, gizmos, force, 8);
      isLoaded := true;
      log := log + [GizmosLoad];
      assert log == old(log) + [AtomsLoad, GizmosLoad];
      out := Pass;
    }

    /**
     * The atom and gizmo loops of `loadFromData`, run one after the other:
     * the new atoms follow the ones already listed, and the gizmos are
     * loaded only when every atom was.
     */
    method LoadParts(ids: seq<int>, table: map<int, AtomData>,
                     instances: seq<InstanceData>, catalog: map<string, Junkyards.GizmoData>)
      returns (out: Outcome)
      requires Valid()
      modifies this`atoms, this`cells, this`gizmos, this`thrusters, this`core, this`cellCount
      modifies atoms`gizmo, atoms`maxHp, atoms`hp
      ensures Valid()
      ensures out == Pass ==> forall p :: p in Placed(ids) ==> p.1 in table
      ensures out == Pass ==>
        forall k :: 0 <= k < |instances| ==> TypeOutcome(catalog, instances[k].modelName, k > 0) == Pass
      ensures out == Pass ==>
        |old(atoms)| <= |atoms| && atoms[..|old(atoms)|] == old(atoms)
        && |atoms[|old(atoms)|..]| == |Placed(ids)|
        && (forall k :: 0 <= k < |Placed(ids)| ==> PlacedAs(atoms[|old(atoms)|..][k], Placed(ids)[k], table))
        && cells == PaintAll(old(cells), atoms[|old(atoms)|..])
        && cellCount == AreaSum(atoms[|old(atoms)|..])
      ensures forall t :: t in thrusters ==> t in old(thrusters) || fresh(t)
    {
      ghost var stop;
      out, stop := LoadAtoms(ids, table);
      if out.Fail? {
        return;
      }
      assert ids[..stop] == ids;
      assert forall k :: 0 <= k < |atoms| ==> atoms[k] in old(atoms) || fresh(atoms[k]) by {
        forall k | 0 <= k < |atoms|
          ensures atoms[k] in old(atoms) || fresh(atoms[k])
        {
          if k >= |old(atoms)| {
            assert atoms[k] in atoms[|old(atoms)|..];
          }
        }
      }
      out := LoadGizmos(instances, catalog);
    }

    /**
     * `loadFromData`: clear a loaded vehicle, build the atoms, then the
     * gizmos; a vehicle without a core is refused. Then the base thrusters
     * are set up, every thruster's torque is recomputed about `com`, and the
     * vehicle counts as loaded. A failed load leaves
     * `isLoaded` unset, and the vehicle valid.
     */
    method LoadFromData(ids: seq<int>, table: map<int, AtomData>,
                        instances: seq<InstanceData>, catalog: map<string, Junkyards.GizmoData>, com: Vec)
      returns (out: Outcome)
      requires Valid()
      modifies this`atoms, this`cells, this`gizmos, this`thrusters, this`core, this`cellCount, this`isLoaded, this`log
      modifies thrusters`torque
      modifies atoms`gizmo, atoms`maxHp, atoms`hp
      ensures Valid()
      ensures out != Pass ==> !isLoaded
      ensures out == Pass ==> isLoaded && core != null && log == old(log) + [AtomsLoad, GizmosLoad]
      ensures out == Pass ==> forall p :: p in Placed(ids) ==> p.1 in table
      ensures out == Pass ==>
        forall k :: 0 <= k < |instances| ==> TypeOutcome(catalog, instances[k].modelName, k > 0) == Pass
      ensures (old(isLoaded) || (old(atoms) == [] && old(cells) == map[])) && out == Pass ==>
        |atoms| == |Placed(ids)|
        && (forall k :: 0 <= k < |Placed(ids)| ==> PlacedAs(atoms[k], Placed(ids)[k], table))
        && cells == PaintAll(map[], atoms) && cellCount == AreaSum(atoms)
      ensures out == Pass ==>
        |gizmos| >= 8 && NewBaseThrusters(gizmos, |gizmos| - 8, core.baseForce.value / 2.0)
      ensures out == Pass ==> forall t :: t in thrusters ==> t.torque == Cross(Sub(t.localPos, com), t.localForce)
    {
      if isLoaded {
        ClearData();
      }
      ghost var t1 := thrusters;
      assert t1 == old(thrusters) || t1 == [];
      out := LoadParts(ids, table, instances, catalog);
      if out.Fail? {
        return;
      }
      assert atoms[0..] == atoms;
      forall j | 0 <= j < |thrusters|
        ensures thrusters[j] in old(thrusters) || fresh(thrusters[j])
      {
        assert thrusters[j] in thrusters;
      }
      out := FinishLoad(com);
    }
  }
}
