/**
 * The damage calculator: a reusable 24×24 buffer of cell records, reset
 * only inside the working rectangle (and only where a live atom sits),
 * radial policies that add Gaussian damage to the cells near the hit
 * position, and the gathering of (atom, damage) pairs from the buffer.
 *
 * The master cell records are modelled as the values they hold, one per
 * grid index in `master`; the slot array `_buffer` becomes `live`, which
 * says whether the slot currently refers to its master record. Positions
 * are in cell units (the world-to-cell conversion is not modelled), and the
 * Gaussian `Math.exp(-0.5 * d² / r²)` is an uninterpreted function
 * `falloff(d², r²)`.
 */
module DamageCalculators {
  import opened Util
  import opened CellRects
  import opened Parts
  import opened VehicleGrid
  import Vehicles

  predicate OnGrid(i: int, j: int)
  {
    0 <= i < AtomGridSize && 0 <= j < AtomGridSize
  }

  /** A rectangle whose cells all lie on the grid (it may be empty). */
  predicate Clipped(rect: CellRect)
  {
    0 <= rect.left && rect.Right() < AtomGridSize && 0 <= rect.top && rect.Bottom() < AtomGridSize
  }

  lemma CellIndexInjective(i: int, j: int, x: int, y: int)
    requires OnGrid(i, j) && OnGrid(x, y) && CellIndex(i, j) == CellIndex(x, y)
    ensures i == x && j == y
  {
  }

  // ---------------------------------------------------------------------
  // The order in which a rectangle's cells are visited: column by column
  // from the left, each column from the top.
  // ---------------------------------------------------------------------

  /** The first `n` cells of column `i` from row `t`. */
  function ColumnVisits(i: int, t: int, n: int): (r: seq<(int, int)>)
    ensures |r| == if n <= 0 then 0 else n
  {
    if n <= 0 then [] else ColumnVisits(i, t, n - 1) + [(i, t + n - 1)]
  }

  /** One more row of a column visit, after any prefix. */
  lemma ColumnVisitsSnoc(done: seq<(int, int)>, i: int, t: int, n: nat)
    ensures done + ColumnVisits(i, t, n) + [(i, t + n)] == done + ColumnVisits(i, t, n + 1)
  {
    AppendAssoc(done, ColumnVisits(i, t, n), [(i, t + n)]);
  }

  /** The cells of the first `w` columns of the `h`-row band at (l, t). */
  function Visits(l: int, t: int, w: int, h: int): seq<(int, int)>
  {
    if w <= 0 then [] else Visits(l, t, w - 1, h) + ColumnVisits(l + w - 1, t, h)
  }

  function RectVisits(rect: CellRect): seq<(int, int)>
  {
    Visits(rect.left, rect.top, rect.width, rect.height)
  }

  lemma {:induction false} ColumnVisitsMembers(i: int, t: int, n: int)
    ensures forall p :: p in ColumnVisits(i, t, n) <==> p.0 == i && t <= p.1 < t + n
    ensures Distinct(ColumnVisits(i, t, n))
  {
    if n > 0 {
      ColumnVisitsMembers(i, t, n - 1);
    }
  }

  lemma {:induction false} VisitsMembers(l: int, t: int, w: int, h: int)
    ensures forall p :: p in Visits(l, t, w, h) <==> l <= p.0 < l + w && t <= p.1 < t + h
    ensures Distinct(Visits(l, t, w, h))
  {
    if w > 0 {
      VisitsMembers(l, t, w - 1, h);
      ColumnVisitsMembers(l + w - 1, t, h);
      var a, b := Visits(l, t, w - 1, h), ColumnVisits(l + w - 1, t, h);
      forall x, y | 0 <= x < y < |a + b|
        ensures (a + b)[x] != (a + b)[y]
      {
        if y >= |a| && x < |a| {
          assert (a + b)[x] in a && (a + b)[y] in b;
        }
      }
    }
  }

  /** `operateOnRect` visits exactly the rectangle's cells, each once. */
  lemma RectVisitsMembers(rect: CellRect)
    ensures forall p :: p in RectVisits(rect) <==> rect.Contains(p.0, p.1)
    ensures Distinct(RectVisits(rect))
    ensures Clipped(rect) ==> AllOnGrid(RectVisits(rect))
  {
    VisitsMembers(rect.left, rect.top, rect.width, rect.height);
  }

  // ---------------------------------------------------------------------
  // Buffer cells and the operations applied to them.
  // ---------------------------------------------------------------------

  /**
   * A `BufferCell`: its grid position, the atom it was reset with, the
   * squared distance last computed, and the damage of the current and the
   * next state.
   */
  datatype CellState = CellState(i: int, j: int, atom: Option<Atom>, distSq: real, damage: int, next: int)

  /** The functions `operateOnRect` is called with. */
  datatype CellOp =
    | StepOp
    | ClearNextOp
    | DistanceOp(px: real, py: real)
    | RadialOp(base: real, radius: real, falloff: (real, real) -> real)

  function Sq(x: real): (r: real)
    ensures r >= 0.0
  {
    x * x
  }

  /** The squared distance from the centre of cell (i, j) to (px, py). */
  function DistanceSq(i: int, j: int, px: real, py: real): real
  {
    Sq(i as real + 0.5 - px) + Sq(j as real + 0.5 - py)
  }

  /**
   * The damage the radial policy adds to a cell at squared distance `d2`:
   * nothing beyond the radius, otherwise the Gaussian of the distance,
   * scaled by the base damage and rounded up.
   */
  function RadialDamage(base: real, radius: real, falloff: (real, real) -> real, d2: real): int
  {
    if d2 > radius * radius then 0 else Ceil(base * falloff(d2, radius * radius))
  }

  /** `BufferCell.reset` followed by setting the atom. */
  function Cleared(s: CellState, a: Atom): CellState
  {
    s.(atom := Some(a), damage := 0, next := 0)
  }

  /** One call of the operated function on a cell. */
  function ApplyOp(op: CellOp, s: CellState): (r: CellState)
    ensures r.i == s.i && r.j == s.j && r.atom == s.atom
  {
    match op
    case StepOp => s.(damage := s.next)
    case ClearNextOp => s.(next := s.damage)
    case DistanceOp(px, py) => s.(distSq := DistanceSq(s.i, s.j, px, py))
    case RadialOp(base, radius, falloff) =>
      if s.distSq > radius * radius then s
      else s.(damage := s.damage + Ceil(base * falloff(s.distSq, radius * radius)))
  }

  /** The radial step adds exactly `RadialDamage` of the cell's distance. */
  lemma RadialAdds(base: real, radius: real, falloff: (real, real) -> real, s: CellState)
    ensures ApplyOp(RadialOp(base, radius, falloff), s).damage
      == s.damage + RadialDamage(base, radius, falloff, s.distSq)
  {
    if s.distSq <= radius * radius {
      var r := ApplyOp(RadialOp(base, radius, falloff), s);
      assert r.damage == s.damage + Ceil(base * falloff(s.distSq, radius * radius));
    }
  }

  predicate AllOnGrid(ps: seq<(int, int)>)
  {
    forall p :: p in ps ==> OnGrid(p.0, p.1)
  }

  /** The buffer slot of cell (i, j) exists. */
  predicate InBuffer(p: (int, int))
  {
    0 <= CellIndex(p.0, p.1) < NumCells
  }

  /**
   * Every cell of the master buffer knows its own position, and a slot
   * that refers to its cell holds an atom.
   */
  ghost predicate Shaped(ms: seq<CellState>, ls: seq<bool>)
  {
    |ms| == NumCells && |ls| == NumCells
    && (forall i, j :: OnGrid(i, j) ==> ms[CellIndex(i, j)].i == i && ms[CellIndex(i, j)].j == j)
    && (forall k :: 0 <= k < NumCells && ls[k] ==> ms[k].atom.Some?)
  }

  /** The master buffer after the operated function ran on the live cells of `ps`, in order. */
  function OpAll(ms: seq<CellState>, ls: seq<bool>, ps: seq<(int, int)>, op: CellOp): (r: seq<CellState>)
    requires |ms| == NumCells && |ls| == NumCells
    ensures |r| == NumCells
  {
    if ps == [] then ms
    else
      var m := OpAll(ms, ls, ps[..|ps| - 1], op);
      var c := CellIndex(ps[|ps| - 1].0, ps[|ps| - 1].1);
      if 0 <= c < NumCells && ls[c] then m[c := ApplyOp(op, m[c])] else m
  }

  lemma OpAllSnoc(ms: seq<CellState>, ls: seq<bool>, ps: seq<(int, int)>, p: (int, int), op: CellOp)
    requires |ms| == NumCells && |ls| == NumCells
    ensures var m := OpAll(ms, ls, ps, op); var c := CellIndex(p.0, p.1);
      OpAll(ms, ls, ps + [p], op) == if 0 <= c < NumCells && ls[c] then m[c := ApplyOp(op, m[c])] else m
  {
    assert (ps + [p])[..|ps|] == ps;
  }

  /** Operating on `ps` and then on `qs` is operating on `ps + qs`. */
  lemma {:induction false} OpAllAppend(ms: seq<CellState>, ls: seq<bool>, ps: seq<(int, int)>, qs: seq<(int, int)>, op: CellOp)
    requires |ms| == NumCells && |ls| == NumCells
    ensures OpAll(ms, ls, ps + qs, op) == OpAll(OpAll(ms, ls, ps, op), ls, qs, op)
    decreases |qs|
  {
    if qs == [] {
      assert ps + qs == ps;
    } else {
      var init := qs[..|qs| - 1];
      OpAllAppend(ms, ls, ps, init, op);
      assert (ps + qs)[..|ps + qs| - 1] == ps + init;
    }
  }

  /**
   * Operating on distinct cells: a visited live cell has been operated on
   * once, every other cell is as it was.
   */
  lemma {:induction false} OpAllAt(ms: seq<CellState>, ls: seq<bool>, ps: seq<(int, int)>, op: CellOp, i: int, j: int)
    requires |ms| == NumCells && |ls| == NumCells && AllOnGrid(ps) && Distinct(ps) && OnGrid(i, j)
    ensures var c := CellIndex(i, j);
      OpAll(ms, ls, ps, op)[c] == if (i, j) in ps && ls[c] then ApplyOp(op, ms[c]) else ms[c]
  {
    if ps != [] {
      var init, last := ps[..|ps| - 1], ps[|ps| - 1];
      assert ps == init + [last];
      OpAllAt(ms, ls, init, op, i, j);
      if last == (i, j) {
        assert (i, j) !in init by {
          forall k | 0 <= k < |init|
            ensures init[k] != (i, j)
          {
            assert ps[k] != ps[|ps| - 1];
          }
        }
      } else {
        assert last in ps;
        if CellIndex(last.0, last.1) == CellIndex(i, j) {
          CellIndexInjective(last.0, last.1, i, j);
        }
      }
    }
  }

  lemma {:induction false} OpAllShaped(ms: seq<CellState>, ls: seq<bool>, ps: seq<(int, int)>, op: CellOp)
    requires Shaped(ms, ls)
    ensures Shaped(OpAll(ms, ls, ps, op), ls)
  {
    if ps != [] {
      OpAllShaped(ms, ls, ps[..|ps| - 1], op);
    }
  }

  /** The master buffer and the slots after `reset` has visited `ps`, in order. */
  function ResetAll(ms: seq<CellState>, ls: seq<bool>, alive: map<int, Atom>, ps: seq<(int, int)>)
    : (r: (seq<CellState>, seq<bool>))
    requires |ms| == NumCells && |ls| == NumCells
    ensures |r.0| == NumCells && |r.1| == NumCells
  {
    if ps == [] then (ms, ls)
    else
      var prev := ResetAll(ms, ls, alive, ps[..|ps| - 1]);
      var c := CellIndex(ps[|ps| - 1].0, ps[|ps| - 1].1);
      if !(0 <= c < NumCells) then prev
      else if c in alive then (prev.0[c := Cleared(prev.0[c], alive[c])], prev.1[c := true])
      else (prev.0, prev.1[c := false])
  }

  lemma ResetAllSnoc(ms: seq<CellState>, ls: seq<bool>, alive: map<int, Atom>, ps: seq<(int, int)>, p: (int, int))
    requires |ms| == NumCells && |ls| == NumCells
    ensures var prev := ResetAll(ms, ls, alive, ps); var c := CellIndex(p.0, p.1);
      ResetAll(ms, ls, alive, ps + [p])
      == if !(0 <= c < NumCells) then prev
         else if c in alive then (prev.0[c := Cleared(prev.0[c], alive[c])], prev.1[c := true])
         else (prev.0, prev.1[c := false])
  {
    assert (ps + [p])[..|ps|] == ps;
  }

  /** Resetting `ps` and then `qs` is resetting `ps + qs`. */
  lemma {:induction false} ResetAllAppend(ms: seq<CellState>, ls: seq<bool>, alive: map<int, Atom>,
                                          ps: seq<(int, int)>, qs: seq<(int, int)>)
    requires |ms| == NumCells && |ls| == NumCells
    ensures var r := ResetAll(ms, ls, alive, ps);
      ResetAll(ms, ls, alive, ps + qs) == ResetAll(r.0, r.1, alive, qs)
    decreases |qs|
  {
    if qs == [] {
      assert ps + qs == ps;
    } else {
      var init := qs[..|qs| - 1];
      ResetAllAppend(ms, ls, alive, ps, init);
      assert (ps + qs)[..|ps + qs| - 1] == ps + init;
    }
  }

  /**
   * After `reset` over distinct cells, a visited slot refers to its cell
   * exactly when a live atom sits there, and then the cell holds that atom
   * with no damage; unvisited slots and cells are as they were.
   */
  lemma {:induction false} ResetAllAt(ms: seq<CellState>, ls: seq<bool>, alive: map<int, Atom>, ps: seq<(int, int)>, i: int, j: int)
    requires |ms| == NumCells && |ls| == NumCells && AllOnGrid(ps) && Distinct(ps) && OnGrid(i, j)
    ensures var r := ResetAll(ms, ls, alive, ps); var c := CellIndex(i, j);
      r.1[c] == (if (i, j) in ps then c in alive else ls[c])
      && r.0[c] == if (i, j) in ps && c in alive then Cleared(ms[c], alive[c]) else ms[c]
  {
    if ps != [] {
      var init, last := ps[..|ps| - 1], ps[|ps| - 1];
      assert ps == init + [last];
      ResetAllAt(ms, ls, alive, init, i, j);
      if last == (i, j) {
        assert (i, j) !in init by {
          forall k | 0 <= k < |init|
            ensures init[k] != (i, j)
          {
            assert ps[k] != ps[|ps| - 1];
          }
        }
      } else {
        assert last in ps;
        if CellIndex(last.0, last.1) == CellIndex(i, j) {
          CellIndexInjective(last.0, last.1, i, j);
        }
      }
    }
  }

  lemma {:induction false} ResetAllShaped(ms: seq<CellState>, ls: seq<bool>, alive: map<int, Atom>, ps: seq<(int, int)>)
    requires Shaped(ms, ls)
    ensures Shaped(ResetAll(ms, ls, alive, ps).0, ResetAll(ms, ls, alive, ps).1)
  {
    if ps != [] {
      ResetAllShaped(ms, ls, alive, ps[..|ps| - 1]);
    }
  }

  /**
   * `_gatherDamages` over `ps`, in order: one (atom, damage) pair per live
   * cell with non-zero damage. The two lists have the same length and hold
   * no zero damage.
   */
  function GatherAll(ms: seq<CellState>, ls: seq<bool>, ps: seq<(int, int)>): (r: (seq<Atom>, seq<int>))
    requires Shaped(ms, ls)
    ensures |r.0| == |r.1| && forall d :: d in r.1 ==> d != 0
  {
    if ps == [] then ([], [])
    else
      var prev := GatherAll(ms, ls, ps[..|ps| - 1]);
      var c := CellIndex(ps[|ps| - 1].0, ps[|ps| - 1].1);
      if 0 <= c < NumCells && ls[c] && ms[c].damage != 0
      then (prev.0 + [ms[c].atom.value], prev.1 + [ms[c].damage])
      else prev
  }

  lemma GatherAllSnoc(ms: seq<CellState>, ls: seq<bool>, ps: seq<(int, int)>, p: (int, int))
    requires Shaped(ms, ls)
    ensures var prev := GatherAll(ms, ls, ps); var c := CellIndex(p.0, p.1);
      GatherAll(ms, ls, ps + [p])
      == if 0 <= c < NumCells && ls[c] && ms[c].damage != 0
         then (prev.0 + [ms[c].atom.value], prev.1 + [ms[c].damage])
         else prev
  {
    assert (ps + [p])[..|ps|] == ps;
  }

  /** Gathering over `ps + qs` appends what `qs` gathers to what `ps` gathers. */
  lemma {:induction false} GatherAllAppend(ms: seq<CellState>, ls: seq<bool>, ps: seq<(int, int)>, qs: seq<(int, int)>)
    requires Shaped(ms, ls)
    ensures GatherAll(ms, ls, ps + qs)
      == (GatherAll(ms, ls, ps).0 + GatherAll(ms, ls, qs).0, GatherAll(ms, ls, ps).1 + GatherAll(ms, ls, qs).1)
    decreases |qs|
  {
    if qs == [] {
      var a := GatherAll(ms, ls, ps);
      assert ps + qs == ps && a.0 + [] == a.0 && a.1 + [] == a.1;
    } else {
      var init, last := qs[..|qs| - 1], qs[|qs| - 1];
      GatherAllAppend(ms, ls, ps, init);
      assert qs == init + [last];
      assert ps + qs == (ps + init) + [last];
      GatherAllSnoc(ms, ls, ps + init, last);
      GatherAllSnoc(ms, ls, init, last);
      var c := CellIndex(last.0, last.1);
      var a, b := GatherAll(ms, ls, ps), GatherAll(ms, ls, init);
      if 0 <= c < NumCells && ls[c] && ms[c].damage != 0 {
        assert (a.0 + b.0) + [ms[c].atom.value] == a.0 + (b.0 + [ms[c].atom.value]);
        assert (a.1 + b.1) + [ms[c].damage] == a.1 + (b.1 + [ms[c].damage]);
      }
    }
  }

  // ---------------------------------------------------------------------
  // What a calculation produces, stated without the buffer.
  // ---------------------------------------------------------------------

  /** A radial policy as it stands when it runs: scaled damage, radius, rectangle. */
  datatype Hit = Hit(base: real, radius: real, rect: CellRect)

  /** The damage every policy in `hs` adds to cell (i, j), in total. */
  function Accumulated(hs: seq<Hit>, falloff: (real, real) -> real, px: real, py: real, i: int, j: int): int
  {
    if hs == [] then 0
    else
      var h := hs[|hs| - 1];
      Accumulated(hs[..|hs| - 1], falloff, px, py, i, j)
      + (if h.rect.Contains(i, j) then RadialDamage(h.base, h.radius, falloff, DistanceSq(i, j, px, py)) else 0)
  }

  /**
   * The (atom, damage) pairs of a calculation: for each cell of `ps` in
   * order that holds a live atom, that atom with its accumulated damage,
   * when that is not zero.
   */
  function Harvest(ps: seq<(int, int)>, alive: map<int, Atom>, hs: seq<Hit>,
                   falloff: (real, real) -> real, px: real, py: real): (r: (seq<Atom>, seq<int>))
    ensures |r.0| == |r.1|
  {
    if ps == [] then ([], [])
    else
      var prev := Harvest(ps[..|ps| - 1], alive, hs, falloff, px, py);
      var p := ps[|ps| - 1];
      var c := CellIndex(p.0, p.1);
      var d := Accumulated(hs, falloff, px, py, p.0, p.1);
      if c in alive && d != 0 then (prev.0 + [alive[c]], prev.1 + [d]) else prev
  }

  /**
   * Every pair harvested is a live atom sitting in one of the visited
   * cells, paired with that cell's non-zero accumulated damage.
   */
  lemma {:induction false} HarvestPairs(ps: seq<(int, int)>, alive: map<int, Atom>, hs: seq<Hit>,
                                        falloff: (real, real) -> real, px: real, py: real, k: int)
    requires 0 <= k < |Harvest(ps, alive, hs, falloff, px, py).0|
    ensures var r := Harvest(ps, alive, hs, falloff, px, py);
      exists p :: p in ps && CellIndex(p.0, p.1) in alive && r.0[k] == alive[CellIndex(p.0, p.1)]
        && r.1[k] == Accumulated(hs, falloff, px, py, p.0, p.1) && r.1[k] != 0
  {
    var init := ps[..|ps| - 1];
    var prev := Harvest(init, alive, hs, falloff, px, py);
    if k < |prev.0| {
      HarvestPairs(init, alive, hs, falloff, px, py, k);
      var p :| p in init && CellIndex(p.0, p.1) in alive && prev.0[k] == alive[CellIndex(p.0, p.1)]
        && prev.1[k] == Accumulated(hs, falloff, px, py, p.0, p.1) && prev.1[k] != 0;
      assert p in ps;
    } else {
      assert ps[|ps| - 1] in ps;
    }
  }

  /**
   * Every visited cell holding a live atom with non-zero accumulated
   * damage is harvested.
   */
  lemma {:induction false} HarvestComplete(ps: seq<(int, int)>, alive: map<int, Atom>, hs: seq<Hit>,
                                           falloff: (real, real) -> real, px: real, py: real, p: (int, int))
    requires p in ps && CellIndex(p.0, p.1) in alive && Accumulated(hs, falloff, px, py, p.0, p.1) != 0
    ensures exists k :: (0 <= k < |Harvest(ps, alive, hs, falloff, px, py).0|
      && Harvest(ps, alive, hs, falloff, px, py).0[k] == alive[CellIndex(p.0, p.1)]
      && Harvest(ps, alive, hs, falloff, px, py).1[k] == Accumulated(hs, falloff, px, py, p.0, p.1))
  {
    var init, last := ps[..|ps| - 1], ps[|ps| - 1];
    assert ps == init + [last];
    var prev := Harvest(init, alive, hs, falloff, px, py);
    var res := Harvest(ps, alive, hs, falloff, px, py);
    var d := Accumulated(hs, falloff, px, py, p.0, p.1);
    if p in init {
      HarvestComplete(init, alive, hs, falloff, px, py, p);
      var n :| 0 <= n < |prev.0| && prev.0[n] == alive[CellIndex(p.0, p.1)] && prev.1[n] == d;
      assert res.0[n] == prev.0[n] && res.1[n] == prev.1[n];
    } else {
      assert p == last;
      assert res == (prev.0 + [alive[CellIndex(p.0, p.1)]], prev.1 + [d]);
      assert res.0[|prev.0|] == alive[CellIndex(p.0, p.1)] && res.1[|prev.0|] == d;
    }
  }

  /**
   * Cell (i, j) after reset and the policies `hs`: its slot is in use
   * exactly when a live atom sits there, and then the cell holds that atom
   * with the damage the policies added up.
   */
  ghost predicate AccumulatedAt(ms: seq<CellState>, ls: seq<bool>, alive: map<int, Atom>, hs: seq<Hit>,
                                falloff: (real, real) -> real, px: real, py: real, i: int, j: int)
    requires |ms| == NumCells && |ls| == NumCells && OnGrid(i, j)
  {
    var c := CellIndex(i, j);
    (ls[c] <==> c in alive)
    && (ls[c] ==> ms[c].atom == Some(alive[c]) && ms[c].damage == Accumulated(hs, falloff, px, py, i, j))
  }

  /** Every cell of the working rectangle is as `AccumulatedAt` says. */
  ghost predicate Accumulating(ms: seq<CellState>, ls: seq<bool>, rect: CellRect, alive: map<int, Atom>, hs: seq<Hit>,
                               falloff: (real, real) -> real, px: real, py: real)
    requires |ms| == NumCells && |ls| == NumCells
  {
    forall i, j :: OnGrid(i, j) && rect.Contains(i, j) ==> AccumulatedAt(ms, ls, alive, hs, falloff, px, py, i, j)
  }

  lemma {:induction false} GatherIsHarvest(ms: seq<CellState>, ls: seq<bool>, ps: seq<(int, int)>, alive: map<int, Atom>,
                                           hs: seq<Hit>, falloff: (real, real) -> real, px: real, py: real)
    requires Shaped(ms, ls) && AllOnGrid(ps)
    requires forall p :: p in ps ==> AccumulatedAt(ms, ls, alive, hs, falloff, px, py, p.0, p.1)
    ensures GatherAll(ms, ls, ps) == Harvest(ps, alive, hs, falloff, px, py)
  {
    if ps != [] {
      var init, last := ps[..|ps| - 1], ps[|ps| - 1];
      assert ps == init + [last];
      GatherIsHarvest(ms, ls, init, alive, hs, falloff, px, py);
      assert AccumulatedAt(ms, ls, alive, hs, falloff, px, py, last.0, last.1);
    }
  }

  /**
   * Gathering over the working rectangle of a buffer in that state yields
   * the harvest: what is gathered depends only on the live atoms and the
   * policies, not on what the buffer held before.
   */
  lemma GatherHarvest(ms: seq<CellState>, ls: seq<bool>, rect: CellRect, alive: map<int, Atom>, hs: seq<Hit>,
                      falloff: (real, real) -> real, px: real, py: real)
    requires Shaped(ms, ls) && Clipped(rect) && Accumulating(ms, ls, rect, alive, hs, falloff, px, py)
    ensures GatherAll(ms, ls, RectVisits(rect)) == Harvest(RectVisits(rect), alive, hs, falloff, px, py)
  {
    RectVisitsMembers(rect);
    GatherIsHarvest(ms, ls, RectVisits(rect), alive, hs, falloff, px, py);
  }

  /** `reset` over the working rectangle starts every cell of it with no damage. */
  lemma ResetAccumulating(ms: seq<CellState>, ls: seq<bool>, rect: CellRect, alive: map<int, Atom>,
                          falloff: (real, real) -> real, px: real, py: real)
    requires Shaped(ms, ls) && Clipped(rect)
    ensures var r := ResetAll(ms, ls, alive, RectVisits(rect));
      Accumulating(r.0, r.1, rect, alive, [], falloff, px, py)
  {
    RectVisitsMembers(rect);
    var r := ResetAll(ms, ls, alive, RectVisits(rect));
    forall i, j | OnGrid(i, j) && rect.Contains(i, j)
      ensures AccumulatedAt(r.0, r.1, alive, [], falloff, px, py, i, j)
    {
      ResetAllAt(ms, ls, alive, RectVisits(rect), i, j);
    }
  }

  /** What the radial policy does to the record of a cell it covers. */
  function RadialEffect(s: CellState, i: int, j: int, px: real, py: real,
                        base: real, radius: real, falloff: (real, real) -> real): (r: CellState)
    ensures r.atom == s.atom && r.i == s.i && r.j == s.j
    ensures r.damage - s.damage == RadialDamage(base, radius, falloff, DistanceSq(i, j, px, py))
  {
    var d2 := DistanceSq(i, j, px, py);
    s.(distSq := d2, damage := s.damage + RadialDamage(base, radius, falloff, d2))
  }

  /**
   * The radial policy's passes took the master buffer from `before` to
   * `after`: every live cell of `rect` got its distance and its radial
   * damage, every other cell is as it was.
   */
  ghost predicate RadialApplied(before: seq<CellState>, after: seq<CellState>, ls: seq<bool>, rect: CellRect,
                                px: real, py: real, base: real, radius: real, falloff: (real, real) -> real)
    requires |before| == NumCells && |after| == NumCells && |ls| == NumCells
  {
    forall i, j :: OnGrid(i, j) ==>
      after[CellIndex(i, j)] == if rect.Contains(i, j) && ls[CellIndex(i, j)]
        then RadialEffect(before[CellIndex(i, j)], i, j, px, py, base, radius, falloff)
        else before[CellIndex(i, j)]
  }

  /**
   * The distance pass followed by the damage pass over distinct on-grid
   * cells: each visited live cell gets its distance and its radial
   * damage, every other cell is as it was.
   */
  lemma TwoPasses(ms: seq<CellState>, ls: seq<bool>, ps: seq<(int, int)>, px: real, py: real,
                  base: real, radius: real, falloff: (real, real) -> real, i: int, j: int)
    requires Shaped(ms, ls) && AllOnGrid(ps) && Distinct(ps) && OnGrid(i, j)
    ensures var c := CellIndex(i, j);
      OpAll(OpAll(ms, ls, ps, DistanceOp(px, py)), ls, ps, RadialOp(base, radius, falloff))[c]
      == if (i, j) in ps && ls[c] then RadialEffect(ms[c], i, j, px, py, base, radius, falloff) else ms[c]
  {
    var c := CellIndex(i, j);
    var m1 := OpAll(ms, ls, ps, DistanceOp(px, py));
    OpAllAt(ms, ls, ps, DistanceOp(px, py), i, j);
    OpAllAt(m1, ls, ps, RadialOp(base, radius, falloff), i, j);
    if (i, j) in ps && ls[c] {
      RadialAfterDistance(ms[c], i, j, px, py, base, radius, falloff);
    }
  }

  lemma RadialAfterDistance(s: CellState, i: int, j: int, px: real, py: real,
                            base: real, radius: real, falloff: (real, real) -> real)
    requires s.i == i && s.j == j
    ensures ApplyOp(RadialOp(base, radius, falloff), ApplyOp(DistanceOp(px, py), s))
      == RadialEffect(s, i, j, px, py, base, radius, falloff)
  {
    var d2 := DistanceSq(i, j, px, py);
    var s1 := ApplyOp(DistanceOp(px, py), s);
    assert s1 == s.(distSq := d2);
    RadialAdds(base, radius, falloff, s1);
  }

  /** The radial policy's two passes over its clipped rectangle. */
  lemma TwoPassesApplied(ms: seq<CellState>, ls: seq<bool>, rect: CellRect, px: real, py: real,
                         base: real, radius: real, falloff: (real, real) -> real)
    requires Shaped(ms, ls) && Clipped(rect)
    ensures var ps := RectVisits(rect);
      RadialApplied(ms, OpAll(OpAll(ms, ls, ps, DistanceOp(px, py)), ls, ps, RadialOp(base, radius, falloff)),
                    ls, rect, px, py, base, radius, falloff)
  {
    var ps := RectVisits(rect);
    RectVisitsMembers(rect);
    forall i, j | OnGrid(i, j)
    {
      TwoPasses(ms, ls, ps, px, py, base, radius, falloff, i, j);
    }
  }

  /** Running one more policy extends the accumulated damage by that policy's share. */
  lemma PolicyStep(ms: seq<CellState>, ms': seq<CellState>, ls: seq<bool>, rect: CellRect, alive: map<int, Atom>,
                   hs: seq<Hit>, h: Hit, falloff: (real, real) -> real, px: real, py: real)
    requires |ms| == NumCells && |ms'| == NumCells && |ls| == NumCells
    requires Accumulating(ms, ls, rect, alive, hs, falloff, px, py)
    requires RadialApplied(ms, ms', ls, h.rect, px, py, h.base, h.radius, falloff)
    ensures Accumulating(ms', ls, rect, alive, hs + [h], falloff, px, py)
  {
    assert (hs + [h])[..|hs|] == hs;
    forall i, j | OnGrid(i, j) && rect.Contains(i, j)
      ensures AccumulatedAt(ms', ls, alive, hs + [h], falloff, px, py, i, j)
    {
      assert AccumulatedAt(ms, ls, alive, hs, falloff, px, py, i, j);
    }
  }

  /**
   * The grid cells the radial policy covers: the columns and rows within
   * the radius of the position, clipped to the grid.
   */
  function RadialRect(px: real, py: real, radius: real): (rect: CellRect)
    ensures Clipped(rect)
  {
    SetLRTB(Max(0, Floor(px - radius)), Min(AtomGridSize - 1, Floor(px + radius)),
            Max(0, Floor(py - radius)), Min(AtomGridSize - 1, Floor(py + radius)))
  }

  /** `this.radius || this.calc.baseDamage`. */
  function Settle(radius: real, baseDamage: real): (r: real)
    ensures radius != 0.0 ==> r == radius
    ensures radius == 0.0 ==> r == baseDamage
  {
    if radius == 0.0 then baseDamage else radius
  }

  lemma SqBelow(a: real, b: real)
    requires 0.0 <= b < a
    ensures b * b < a * a
  {
    var d, e := a - b, a + b;
    assert d > 0.0 && e > 0.0;
    assert d * e > 0.0;
    assert a * a - b * b == d * e;
  }

  /** A square no larger than r² has its root within ±r. */
  lemma SqBound(x: real, r: real)
    requires r >= 0.0 && Sq(x) <= r * r
    ensures -r <= x <= r
  {
    if x > r {
      SqBelow(x, r);
    } else if x < -r {
      SqBelow(-x, r);
    }
  }

  /**
   * The rectangle misses no cell the radial policy could damage: every
   * grid cell whose centre lies within the radius is inside it.
   */
  lemma RadialRectCovers(px: real, py: real, radius: real, i: int, j: int)
    requires radius >= 0.0 && OnGrid(i, j)
    requires DistanceSq(i, j, px, py) <= radius * radius
    ensures RadialRect(px, py, radius).Contains(i, j)
  {
    var dx, dy := i as real + 0.5 - px, j as real + 0.5 - py;
    SqBound(dx, radius);
    SqBound(dy, radius);
    assert Floor(px - radius) <= i && i <= Floor(px + radius);
    assert Floor(py - radius) <= j && j <= Floor(py + radius);
  }

  /** `combine`, folded over the policy rectangles from the first. */
  function CombineAll(rs: seq<CellRect>): CellRect
    requires rs != []
  {
    if |rs| == 1 then rs[0] else Combine(CombineAll(rs[..|rs| - 1]), rs[|rs| - 1])
  }

  /** Combining clipped rectangles stays on the grid and covers each of them. */
  lemma {:induction false} CombineAllCovers(rs: seq<CellRect>)
    requires rs != [] && forall r :: r in rs ==> Clipped(r)
    ensures Clipped(CombineAll(rs))
    ensures forall k, x, y :: 0 <= k < |rs| && rs[k].Contains(x, y) ==> CombineAll(rs).Contains(x, y)
  {
    if |rs| > 1 {
      var init := rs[..|rs| - 1];
      assert forall r :: r in init ==> r in rs;
      assert rs[|rs| - 1] in rs;
      CombineAllCovers(init);
      forall k, x, y | 0 <= k < |rs| && rs[k].Contains(x, y)
        ensures CombineAll(rs).Contains(x, y)
      {
        if k < |rs| - 1 {
          assert init[k] == rs[k];
        }
      }
    } else {
      assert rs[0] in rs;
    }
  }

  // ---------------------------------------------------------------------
  // The buffer.
  // ---------------------------------------------------------------------

  /** The hp of each atom in the hash is read: the cells holding a live atom. */
  ghost function LiveCells(model: Vehicles.VehicleModel): map<int, Atom>
    reads model`cells, model.cells.Values
  {
    map c | c in model.cells && model.cells[c].hp.Positive() :: model.cells[c]
  }

  class DamageBuffer {
    /** `__masterBuffer__`: one cell record per grid index j*24 + i. */
    const master: array<CellState>
    /** `_buffer`: whether slot k currently refers to its master record. */
    const live: array<bool>

    ghost predicate Valid()
      reads master, live
    {
      master.Length == NumCells && live.Length == NumCells && Shaped(master[..], live[..])
    }

    /** A buffer over the 24×24 grid: every cell record made, no slot in use. */
    constructor ()
      ensures Valid() && fresh(master) && fresh(live)
      ensures forall k :: 0 <= k < NumCells ==> !live[k]
      ensures forall i, j :: OnGrid(i, j) ==> master[CellIndex(i, j)] == CellState(i, j, None, 0.0, 0, 0)
    {
      master := new CellState[NumCells](k => CellState(k % AtomGridSize, k / AtomGridSize, None, 0.0, 0, 0));
      live := new bool[NumCells](k => false);
    }

    /**
     * `get`: the record slot (i, j) refers to, if any; on the grid it is
     * the record of cell (i, j).
     */
    function Get(i: int, j: int): (r: Option<CellState>)
      reads master, live
      requires Valid()
      ensures OnGrid(i, j) && r.Some? ==> r.value.i == i && r.value.j == j
      ensures OnGrid(i, j) ==> (r.Some? <==> live[CellIndex(i, j)])
    {
      var k := CellIndex(i, j);
      if 0 <= k < NumCells && live[k] then Some(master[k]) else None
    }

    /**
     * The inner loop of `reset`: rows t .. t+h-1 of column i, from the
     * top, which extends a reset that has visited `done` by that column.
     */
    method ResetColumn(i: int, t: int, h: int, model: Vehicles.VehicleModel, ghost m0: seq<CellState>, ghost l0: seq<bool>,
                       ghost alive: map<int, Atom>, ghost done: seq<(int, int)>)
      requires |m0| == NumCells && |l0| == NumCells && alive == LiveCells(model)
      requires master.Length == NumCells && live.Length == NumCells
      requires (master[..], live[..]) == ResetAll(m0, l0, alive, done)
      modifies master, live
      ensures (master[..], live[..]) == ResetAll(m0, l0, alive, done + ColumnVisits(i, t, h))
    {
      assert done + ColumnVisits(i, t, 0) == done;
      ghost var ps := done;
      var j := t;
      while j <= t + h - 1
        invariant t <= j <= t + (if h <= 0 then 0 else h)
        invariant alive == LiveCells(model)
        invariant ps == done + ColumnVisits(i, t, j - t)
        invariant (master[..], live[..]) == ResetAll(m0, l0, alive, ps)
        decreases t + h - j
      {
        ColumnVisitsSnoc(done, i, t, j - t);
        ResetCell(i, j, model, m0, l0, alive, ps);
        ps := ps + [(i, j)];
        j := j + 1;
      }
    }

    /**
     * One turn of the row loop: slot (i, j) is pointed at its cleared
     * record when a live atom sits there and emptied otherwise, which
     * extends the reset by one cell.
     */
    method ResetCell(i: int, j: int, model: Vehicles.VehicleModel, ghost m0: seq<CellState>, ghost l0: seq<bool>,
                     ghost alive: map<int, Atom>, ghost done: seq<(int, int)>)
      requires |m0| == NumCells && |l0| == NumCells && alive == LiveCells(model)
      requires master.Length == NumCells && live.Length == NumCells
      requires (master[..], live[..]) == ResetAll(m0, l0, alive, done)
      modifies master, live
      ensures (master[..], live[..]) == ResetAll(m0, l0, alive, done + [(i, j)])
    {
      ResetAllSnoc(m0, l0, alive, done, (i, j));
      var k := CellIndex(i, j);
      if 0 <= k < NumCells {
        var atom := model.GetAtom(i, j);
        if atom.Some? && atom.value.hp.Positive() {
          assert k in alive;
          master[k] := Cleared(master[k], atom.value);
          live[k] := true;
        } else {
          assert k !in alive;
          live[k] := false;
        }
      }
    }

    /**
     * `reset`: every slot of the rectangle is pointed at its freshly reset
     * record when a live atom sits in that cell, and emptied otherwise.
     */
    method Reset(rect: CellRect, model: Vehicles.VehicleModel)
      requires Valid()
      modifies master, live
      ensures Valid()
      ensures (master[..], live[..]) == ResetAll(old(master[..]), old(live[..]), LiveCells(model), RectVisits(rect))
    {
      ghost var m0, l0, alive := master[..], live[..], LiveCells(model);
      var i := rect.left;
      while i <= rect.Right()
        invariant rect.left <= i <= rect.left + (if rect.width <= 0 then 0 else rect.width)
        invariant alive == LiveCells(model)
        invariant (master[..], live[..]) == ResetAll(m0, l0, alive, Visits(rect.left, rect.top, i - rect.left, rect.height))
        decreases rect.Right() + 1 - i
      {
        assert Visits(rect.left, rect.top, i + 1 - rect.left, rect.height)
          == Visits(rect.left, rect.top, i - rect.left, rect.height) + ColumnVisits(i, rect.top, rect.height);
        ResetColumn(i, rect.top, rect.height, model, m0, l0, alive, Visits(rect.left, rect.top, i - rect.left, rect.height));
        i := i + 1;
      }
      assert Visits(rect.left, rect.top, i - rect.left, rect.height) == RectVisits(rect);
      ResetAllShaped(m0, l0, alive, RectVisits(rect));
    }

    /**
     * The inner loop of `operateOnRect`: rows t .. t+h-1 of column i, from
     * the top, which extends a pass that has visited `done` by that column.
     */
    method OperateOnColumn(i: int, t: int, h: int, op: CellOp, ghost m0: seq<CellState>, ghost done: seq<(int, int)>)
      requires master.Length == NumCells && live.Length == NumCells && |m0| == NumCells
      requires master[..] == OpAll(m0, live[..], done, op)
      modifies master
      ensures master[..] == OpAll(m0, live[..], done + ColumnVisits(i, t, h), op)
    {
      assert done + ColumnVisits(i, t, 0) == done;
      ghost var ps, ls := done, live[..];
      var rows := if h <= 0 then 0 else h;
      for n := 0 to rows
        invariant ps == done + ColumnVisits(i, t, n)
        invariant live[..] == ls
        invariant master[..] == OpAll(m0, ls, ps, op)
      {
        ColumnVisitsSnoc(done, i, t, n);
        OperateOnCell(i, t + n, op, m0, ls, ps);
        ps := ps + [(i, t + n)];
      }
      assert ColumnVisits(i, t, rows) == ColumnVisits(i, t, h);
    }

    /**
     * One turn of the column loop: the record slot (i, j) refers to, if
     * any, is operated on, which extends the pass by one cell.
     */
    method OperateOnCell(i: int, j: int, op: CellOp, ghost m0: seq<CellState>, ghost ls: seq<bool>, ghost done: seq<(int, int)>)
      requires master.Length == NumCells && live.Length == NumCells && |m0| == NumCells && live[..] == ls
      requires master[..] == OpAll(m0, ls, done, op)
      modifies master
      ensures master[..] == OpAll(m0, ls, done + [(i, j)], op)
    {
      OpAllSnoc(m0, ls, done, (i, j), op);
      var k := CellIndex(i, j);
      if 0 <= k < NumCells && live[k] {
        master[k] := ApplyOp(op, master[k]);
      }
    }

    /**
     * `operateOnRect`: the function runs on every slot of the rectangle
     * that refers to a record, column by column, each column from the top.
     */
    method OperateOnRect(rect: CellRect, op: CellOp)
      requires Valid()
      modifies master
      ensures Valid()
      ensures master[..] == OpAll(old(master[..]), live[..], RectVisits(rect), op)
    {
      ghost var m0, ls := master[..], live[..];
      var i := rect.left;
      while i <= rect.Right()
        invariant rect.left <= i <= rect.left + (if rect.width <= 0 then 0 else rect.width)
        invariant live[..] == ls
        invariant master[..] == OpAll(m0, ls, Visits(rect.left, rect.top, i - rect.left, rect.height), op)
        decreases rect.Right() + 1 - i
      {
        assert Visits(rect.left, rect.top, i + 1 - rect.left, rect.height)
          == Visits(rect.left, rect.top, i - rect.left, rect.height) + ColumnVisits(i, rect.top, rect.height);
        OperateOnColumn(i, rect.top, rect.height, op, m0, Visits(rect.left, rect.top, i - rect.left, rect.height));
        i := i + 1;
      }
      assert Visits(rect.left, rect.top, i - rect.left, rect.height) == RectVisits(rect);
      OpAllShaped(m0, ls, RectVisits(rect), op);
    }

    /** `step`: the next damage becomes the current damage on the live cells of the rectangle. */
    method Step(rect: CellRect)
      requires Valid() && Clipped(rect)
      modifies master
      ensures Valid()
      ensures forall i, j :: OnGrid(i, j) ==>
        master[CellIndex(i, j)] == if rect.Contains(i, j) && live[CellIndex(i, j)]
          then old(master[CellIndex(i, j)]).(damage := old(master[CellIndex(i, j)]).next)
          else old(master[CellIndex(i, j)])
    {
      OperateOnRect(rect, StepOp);
      RectVisitsMembers(rect);
      forall i, j | OnGrid(i, j)
        ensures master[CellIndex(i, j)] == if rect.Contains(i, j) && live[CellIndex(i, j)]
          then old(master[CellIndex(i, j)]).(damage := old(master[CellIndex(i, j)]).next)
          else old(master[CellIndex(i, j)])
      {
        OpAllAt(old(master[..]), live[..], RectVisits(rect), StepOp, i, j);
      }
    }

    /** `clearNext`: the next damage is overwritten by the current one on the live cells of the rectangle. */
    method ClearNext(rect: CellRect)
      requires Valid() && Clipped(rect)
      modifies master
      ensures Valid()
      ensures forall i, j :: OnGrid(i, j) ==>
        master[CellIndex(i, j)] == if rect.Contains(i, j) && live[CellIndex(i, j)]
          then old(master[CellIndex(i, j)]).(next := old(master[CellIndex(i, j)]).damage)
          else old(master[CellIndex(i, j)])
    {
      OperateOnRect(rect, ClearNextOp);
      RectVisitsMembers(rect);
      forall i, j | OnGrid(i, j)
        ensures master[CellIndex(i, j)] == if rect.Contains(i, j) && live[CellIndex(i, j)]
          then old(master[CellIndex(i, j)]).(next := old(master[CellIndex(i, j)]).damage)
          else old(master[CellIndex(i, j)])
      {
        OpAllAt(old(master[..]), live[..], RectVisits(rect), ClearNextOp, i, j);
      }
    }

    /** The inner loop of the gathering pass: rows t .. t+h-1 of column i, pushed onto the lists. */
    method GatherColumn(i: int, t: int, h: int, atoms0: seq<Atom>, damages0: seq<int>)
      returns (atoms: seq<Atom>, damages: seq<int>)
      requires Valid()
      ensures var g := GatherAll(master[..], live[..], ColumnVisits(i, t, h));
        atoms == atoms0 + g.0 && damages == damages0 + g.1
    {
      ghost var ms, ls := master[..], live[..];
      atoms, damages := atoms0, damages0;
      var rows := if h <= 0 then 0 else h;
      for n := 0 to rows
        invariant var g := GatherAll(ms, ls, ColumnVisits(i, t, n));
          atoms == atoms0 + g.0 && damages == damages0 + g.1
      {
        ghost var g := GatherAll(ms, ls, ColumnVisits(i, t, n));
        GatherAllSnoc(ms, ls, ColumnVisits(i, t, n), (i, t + n));
        assert ColumnVisits(i, t, n + 1) == ColumnVisits(i, t, n) + [(i, t + n)];
        var k := CellIndex(i, t + n);
        if 0 <= k < NumCells && live[k] && master[k].damage != 0 {
          var a, d := master[k].atom.value, master[k].damage;
          AppendAssoc(atoms0, g.0, [a]);
          AppendAssoc(damages0, g.1, [d]);
          atoms := atoms + [a];
          damages := damages + [d];
        }
      }
      assert ColumnVisits(i, t, rows) == ColumnVisits(i, t, h);
    }

    /**
     * `operateOnRect` with `_gatherDamages`, into emptied lists: the pairs
     * of the live cells of the rectangle with non-zero damage, in visiting
     * order.
     */
    method Gather(rect: CellRect) returns (atoms: seq<Atom>, damages: seq<int>)
      requires Valid()
      ensures (atoms, damages) == GatherAll(master[..], live[..], RectVisits(rect))
    {
      atoms, damages := [], [];
      var i := rect.left;
      while i <= rect.Right()
        invariant rect.left <= i <= rect.left + (if rect.width <= 0 then 0 else rect.width)
        invariant (atoms, damages) == GatherAll(master[..], live[..], Visits(rect.left, rect.top, i - rect.left, rect.height))
        decreases rect.Right() + 1 - i
      {
        GatherAllAppend(master[..], live[..], Visits(rect.left, rect.top, i - rect.left, rect.height), ColumnVisits(i, rect.top, rect.height));
        atoms, damages := GatherColumn(i, rect.top, rect.height, atoms, damages);
        i := i + 1;
      }
      assert Visits(rect.left, rect.top, i - rect.left, rect.height) == RectVisits(rect);
    }
  }

  // ---------------------------------------------------------------------
  // The radial policy and the calculator.
  // ---------------------------------------------------------------------

  class RadialPolicy {
    var rect: CellRect
    var damageMod: real
    var radius: real

    /** A policy with modifier 1 and no radius yet. */
    constructor ()
      ensures damageMod == 1.0 && radius == 0.0
    {
      rect := CellRect(0, 0, 0, 0);
      damageMod := 1.0;
      radius := 0.0;
    }

    method SetDamageModifier(mod: real)
      modifies this`damageMod
      ensures damageMod == mod
    {
      damageMod := mod;
    }

    method SetRadius(r: real)
      modifies this`radius
      ensures radius == r
    {
      radius := r;
    }

    /**
     * `computeRect`: a zero radius is replaced by the base damage, for this
     * and later calls; the rectangle is the grid cells within the radius of
     * the position.
     */
    method ComputeRect(px: real, py: real, baseDamage: real) returns (r: CellRect)
      modifies this`radius, this`rect
      ensures radius == Settle(old(radius), baseDamage)
      ensures rect == RadialRect(px, py, radius) && r == rect
      ensures Clipped(rect) && Fitted(px, py, baseDamage)
      ensures old(Fitted(px, py, baseDamage)) ==> radius == old(radius) && rect == old(rect)
    {
      radius := Settle(radius, baseDamage);
      rect := RadialRect(px, py, radius);
      r := rect;
    }

    /**
     * The radius is settled and the rectangle computed for this position:
     * computing it again changes nothing.
     */
    ghost predicate Fitted(px: real, py: real, baseDamage: real)
      reads this`radius, this`rect
    {
      Settle(radius, baseDamage) == radius && rect == RadialRect(px, py, radius)
    }

    /** The policy as it runs under the given base damage. */
    ghost function AsHit(baseDamage: real): Hit
      reads this
    {
      Hit(baseDamage * damageMod, radius, rect)
    }

    /**
     * `execute`: the distance of every live cell of the rectangle is
     * computed, then each such cell within the radius gains its radial
     * damage; nothing else changes.
     */
    method Execute(buffer: DamageBuffer, px: real, py: real, baseDamage: real, falloff: (real, real) -> real)
      requires buffer.Valid() && Clipped(rect)
      modifies buffer.master
      ensures buffer.Valid()
      ensures RadialApplied(old(buffer.master[..]), buffer.master[..], buffer.live[..], rect,
                            px, py, baseDamage * damageMod, radius, falloff)
    {
      ghost var m0, ls := buffer.master[..], buffer.live[..];
      var base, r, area := baseDamage * damageMod, radius, rect;
      var op := RadialOp(base, r, falloff);
      buffer.OperateOnRect(area, DistanceOp(px, py));
      ghost var m1 := buffer.master[..];
      assert m1 == OpAll(m0, ls, RectVisits(area), DistanceOp(px, py));
      buffer.OperateOnRect(area, op);
      ghost var m2 := buffer.master[..];
      assert m2 == OpAll(m1, ls, RectVisits(area), op);
      TwoPassesApplied(m0, ls, area, px, py, base, r, falloff);
      assert buffer.live[..] == ls;
      assert rect == area;
      assert radius == r;
      assert baseDamage * damageMod == base;
      assert buffer.master[..] == m2;
      assert old(buffer.master[..]) == m0;
    }
  }

  /** The policies as they run. */
  ghost function HitsOf(ps: seq<RadialPolicy>, baseDamage: real): (hs: seq<Hit>)
    reads set p | p in ps
    ensures |hs| == |ps| && forall k :: 0 <= k < |ps| ==> hs[k] == ps[k].AsHit(baseDamage)
  {
    if ps == [] then [] else HitsOf(ps[..|ps| - 1], baseDamage) + [ps[|ps| - 1].AsHit(baseDamage)]
  }

  /** The policy loop of `execute`: each policy, in order, runs on the buffer. */
  method RunPolicies(ps: seq<RadialPolicy>, buffer: DamageBuffer, ghost rect: CellRect, ghost alive: map<int, Atom>,
                     x: real, y: real, damage: real, falloff: (real, real) -> real)
    requires buffer.Valid()
    requires forall k :: 0 <= k < |ps| ==> Clipped(ps[k].rect)
    requires Accumulating(buffer.master[..], buffer.live[..], rect, alive, [], falloff, x, y)
    modifies buffer.master
    ensures buffer.Valid()
    ensures Accumulating(buffer.master[..], buffer.live[..], rect, alive, HitsOf(ps, damage), falloff, x, y)
  {
    ghost var hs := HitsOf(ps, damage);
    assert hs[..0] == [];
    for k := 0 to |ps|
      invariant buffer.Valid()
      invariant Accumulating(buffer.master[..], buffer.live[..], rect, alive, hs[..k], falloff, x, y)
    {
      RunPolicy(ps[k], buffer, rect, alive, hs[..k], x, y, damage, falloff);
      assert hs[..k] + [hs[k]] == hs[..k + 1];
    }
    assert hs[..|ps|] == hs;
  }

  /** One turn of the policy loop: the policy runs, and its hit joins those already accumulated. */
  method RunPolicy(p: RadialPolicy, buffer: DamageBuffer, ghost rect: CellRect, ghost alive: map<int, Atom>,
                   ghost hs: seq<Hit>, x: real, y: real, damage: real, falloff: (real, real) -> real)
    requires buffer.Valid() && Clipped(p.rect)
    requires Accumulating(buffer.master[..], buffer.live[..], rect, alive, hs, falloff, x, y)
    modifies buffer.master
    ensures buffer.Valid()
    ensures Accumulating(buffer.master[..], buffer.live[..], rect, alive, hs + [p.AsHit(damage)], falloff, x, y)
  {
    ghost var before := buffer.master[..];
    p.Execute(buffer, x, y, damage, falloff);
    PolicyStep(before, buffer.master[..], buffer.live[..], rect, alive, hs, p.AsHit(damage), falloff, x, y);
  }

  /**
   * The second half of `execute`: the working rectangle of the buffer is
   * reset, every policy runs on it in order, and the live cells with
   * non-zero damage are gathered.
   */
  method Accumulate(buffer: DamageBuffer, ps: seq<RadialPolicy>, area: CellRect, model: Vehicles.VehicleModel,
                    x: real, y: real, damage: real, falloff: (real, real) -> real)
    returns (atoms: seq<Atom>, damages: seq<int>)
    requires buffer.Valid() && Clipped(area)
    requires forall k :: 0 <= k < |ps| ==> Clipped(ps[k].rect)
    modifies buffer.master, buffer.live
    ensures buffer.Valid()
    ensures (atoms, damages) == Harvest(RectVisits(area), LiveCells(model), HitsOf(ps, damage), falloff, x, y)
  {
    ghost var alive := LiveCells(model);
    ghost var m0, l0 := buffer.master[..], buffer.live[..];
    buffer.Reset(area, model);
    ResetAccumulating(m0, l0, area, alive, falloff, x, y);
    RunPolicies(ps, buffer, area, alive, x, y, damage, falloff);
    atoms, damages := buffer.Gather(area);
    GatherHarvest(buffer.master[..], buffer.live[..], area, alive, HitsOf(ps, damage), falloff, x, y);
  }

  class DamageCalculator {
    var px: real
    var py: real
    var baseDamage: real
    var policies: seq<RadialPolicy>
    var rect: CellRect
    const buffer: DamageBuffer

    ghost predicate Valid()
      reads buffer.master, buffer.live
    {
      buffer.Valid()
    }

    constructor ()
      ensures Valid() && fresh(buffer) && fresh(buffer.master) && fresh(buffer.live)
      ensures policies == [] && baseDamage == 0.0
    {
      px, py := 0.0, 0.0;
      baseDamage := 0.0;
      policies := [];
      rect := CellRect(0, 0, 0, 0);
      buffer := new DamageBuffer();
    }

    /** `addPolicy`: the policy runs after those already added. */
    method AddPolicy(p: RadialPolicy)
      modifies this`policies
      ensures policies == old(policies) + [p]
    {
      policies := policies + [p];
    }

    /**
     * The first half of `execute`: every policy's rectangle is computed, in
     * order, and the working rectangle is their combination. A policy added
     * twice computes the same rectangle twice, its radius settled once.
     */
    method ComputeRects() returns (ghost rs: seq<CellRect>)
      requires policies != []
      modifies this`rect, policies`radius, policies`rect
      ensures |rs| == |policies| && rect == CombineAll(rs)
      ensures forall k :: 0 <= k < |policies| ==> policies[k].rect == rs[k] && Clipped(rs[k]) && policies[k].Fitted(px, py, baseDamage)
      ensures forall k :: 0 <= k < |policies| ==> policies[k].radius == Settle(old(policies[k].radius), baseDamage)
      ensures Clipped(rect)
      ensures forall k, x, y :: 0 <= k < |rs| && rs[k].Contains(x, y) ==> rect.Contains(x, y)
    {
      var x, y, b, ps := px, py, baseDamage, policies;
      var r0 := ps[0].ComputeRect(x, y, b);
      rect := r0;
      rs := [r0];
      for k := 1 to |ps|
        invariant |rs| == k && rect == CombineAll(rs)
        invariant forall m :: 0 <= m < k ==> ps[m].rect == rs[m] && Clipped(rs[m]) && ps[m].Fitted(x, y, b)
        invariant forall m :: 0 <= m < |ps| ==> Settle(ps[m].radius, b) == Settle(old(ps[m].radius), b)
      {
        var r := FitPolicy(ps, k, ps[k], x, y, b, rs);
        rect := Combine(rect, r);
        rs := rs + [r];
      }
      forall r | r in rs
        ensures Clipped(r)
      {
        var m :| 0 <= m < |rs| && rs[m] == r;
      }
      CombineAllCovers(rs);
    }

    /**
     * One turn of the rectangle loop: policy `k` computes its rectangle;
     * the policies before it, even one that is the same object, keep theirs.
     */
    static method FitPolicy(ps: seq<RadialPolicy>, k: nat, p: RadialPolicy, x: real, y: real, b: real, ghost rs: seq<CellRect>)
      returns (r: CellRect)
      requires k < |ps| && p == ps[k] && |rs| == k
      requires forall m :: 0 <= m < k ==> ps[m].rect == rs[m] && Clipped(rs[m]) && ps[m].Fitted(x, y, b)
      modifies p`radius, p`rect
      ensures forall m :: 0 <= m <= k ==> ps[m].rect == (rs + [r])[m] && Clipped((rs + [r])[m]) && ps[m].Fitted(x, y, b)
      ensures forall m :: 0 <= m < |ps| ==> Settle(ps[m].radius, b) == Settle(old(ps[m].radius), b)
    {
      var p := ps[k];
      ghost var wasFitted, oldRect := p.Fitted(x, y, b), p.rect;
      r := p.ComputeRect(x, y, b);
      forall m | 0 <= m < k
        ensures ps[m].rect == rs[m] && Clipped(rs[m]) && ps[m].Fitted(x, y, b)
      {
        if ps[m] == p {
          assert wasFitted && r == oldRect;
        }
      }
    }

    /**
     * `execute` on cell coordinates: with no policy the first
     * `computeRect` call throws; otherwise the result is, in visiting order
     * of the working rectangle, each live atom with its accumulated
     * non-zero damage.
     */
    method Execute(model: Vehicles.VehicleModel, x: real, y: real, damage: real, falloff: (real, real) -> real)
      returns (atoms: seq<Atom>, damages: seq<int>, out: Outcome)
      requires Valid()
      modifies this`px, this`py, this`baseDamage, this`rect
      modifies policies`radius, policies`rect
      modifies buffer.master, buffer.live
      ensures Valid()
      ensures px == x && py == y && baseDamage == damage
      ensures out == Pass <==> policies != []
      ensures out != Pass ==> out == Fail("TypeError") && atoms == [] && damages == []
      ensures out == Pass ==>
        Clipped(rect)
        && (forall k :: 0 <= k < |policies| ==>
              policies[k].radius == Settle(old(policies[k].radius), damage)
              && policies[k].rect == RadialRect(x, y, policies[k].radius))
        && (forall k, i, j :: 0 <= k < |policies| && policies[k].rect.Contains(i, j) ==> rect.Contains(i, j))
        && (atoms, damages) == Harvest(RectVisits(rect), LiveCells(model), HitsOf(policies, damage), falloff, x, y)
    {
      ghost var alive := LiveCells(model);
      px, py := x, y;
      baseDamage := damage;
      if policies == [] {
        return [], [], Fail("TypeError");
      }
      ghost var rs := ComputeRects();
      assert forall k :: 0 <= k < |policies| ==>
        policies[k].radius == Settle(old(policies[k].radius), damage)
        && policies[k].rect == RadialRect(x, y, policies[k].radius);
      assert forall k, i, j :: 0 <= k < |policies| && policies[k].rect.Contains(i, j) ==> rect.Contains(i, j);
      var area, ps := rect, policies;
      atoms, damages := Accumulate(buffer, ps, area, model, x, y, damage, falloff);
      out := Pass;
    }
  }
}
