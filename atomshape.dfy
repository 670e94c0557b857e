/**
 * AtomShape: the outline of a vehicle's atoms, hole-filled and cut into
 * rectangles for the compound physics shape.
 *
 * The shape is built from the hit points of the 576 cells of the atom grid
 * (0 for an empty cell). A cell belongs to the filled shape when it lies
 * between the first and last live cell of its row AND between the first and
 * last live cell of its column.
 */
module AtomShapes {
  import opened Util
  import opened CellRects
  import Vehicles

  // ---------------------------------------------------------------------
  // Lines of the grid. _fillRows walks rows (line = row, position = column),
  // _fillCols walks columns (line = column, position = row).
  // ---------------------------------------------------------------------

  function Cell(byRow: bool, l: int, p: int): int { if byRow then Idx(l, p) else Idx(p, l) }

  predicate Lit(s: seq<Hp>, byRow: bool, l: int, p: int)
    requires |s| == 576
  {
    0 <= l < 24 && 0 <= p < 24 && s[Cell(byRow, l, p)].Truthy()
  }

  /** The first position from p on whose truthiness is t, or 24. */
  function ScanFwd(s: seq<Hp>, byRow: bool, l: int, p: int, t: bool): (r: int)
    requires |s| == 576 && 0 <= l < 24 && 0 <= p <= 24
    ensures p <= r <= 24
    ensures forall k :: p <= k < r ==> Lit(s, byRow, l, k) != t
    ensures r < 24 ==> Lit(s, byRow, l, r) == t
    decreases 24 - p
  {
    if p == 24 || Lit(s, byRow, l, p) == t then p else ScanFwd(s, byRow, l, p + 1, t)
  }

  /** The last position from p back whose truthiness is t, or -1. */
  function ScanBack(s: seq<Hp>, byRow: bool, l: int, p: int, t: bool): (r: int)
    requires |s| == 576 && 0 <= l < 24 && -1 <= p < 24
    ensures -1 <= r <= p
    ensures forall k :: r < k <= p ==> Lit(s, byRow, l, k) != t
    ensures r >= 0 ==> Lit(s, byRow, l, r) == t
    decreases p + 1
  {
    if p == -1 || Lit(s, byRow, l, p) == t then p else ScanBack(s, byRow, l, p - 1, t)
  }

  /**
   * The positions the fill sets to 1 in line l: from the first hole after the
   * first live run to the last hole before the last live run (empty when the
   * line is empty or has no hole after its first run).
   */
  function FillRange(s: seq<Hp>, byRow: bool, l: int): (range: (int, int))
    requires |s| == 576 && 0 <= l < 24
  {
    var first := ScanFwd(s, byRow, l, 0, true);
    if first == 24 then (24, -1)
    else
      var hole := ScanFwd(s, byRow, l, first, false);
      if hole == 24 then (24, -1)
      else
        var last := ScanBack(s, byRow, l, 23, true);
        (hole, ScanBack(s, byRow, l, last, false))
  }

  /** The value at position p of line l after the fill. */
  function FilledAt(s: seq<Hp>, byRow: bool, l: int, p: int): Hp
    requires |s| == 576 && 0 <= l < 24 && 0 <= p < 24
  {
    var range := FillRange(s, byRow, l);
    if range.0 <= p <= range.1 then Finite(1) else s[Cell(byRow, l, p)]
  }

  /** Hole filling closes each line: afterwards a position is live iff it lies between the line's first and last live position. */
  lemma FilledSpan(s: seq<Hp>, byRow: bool, l: int, p: int)
    requires |s| == 576 && 0 <= l < 24 && 0 <= p < 24
    ensures var first, last := ScanFwd(s, byRow, l, 0, true), ScanBack(s, byRow, l, 23, true);
      FilledAt(s, byRow, l, p).Truthy() <==> first <= p <= last
  {
    var first, last := ScanFwd(s, byRow, l, 0, true), ScanBack(s, byRow, l, 23, true);
    if first < 24 {
      assert first <= last;
      var hole := ScanFwd(s, byRow, l, first, false);
      if hole < 24 {
        var end := ScanBack(s, byRow, l, last, false);
        assert FillRange(s, byRow, l) == (hole, end);
        if last < hole {
          assert end < first;
          if p < first {
            assert !Lit(s, byRow, l, p);
          } else if p <= last {
            assert Lit(s, byRow, l, p);
          } else {
            assert !Lit(s, byRow, l, p);
          }
        } else {
          assert hole <= end;
          if p < first {
            assert !Lit(s, byRow, l, p);
          } else if p < hole {
            assert Lit(s, byRow, l, p);
          } else if p <= end {
          } else if p <= last {
            assert Lit(s, byRow, l, p);
          } else {
            assert !Lit(s, byRow, l, p);
          }
        }
      } else {
        assert FillRange(s, byRow, l) == (24, -1);
        assert last == 23 by { assert Lit(s, byRow, l, 23); }
        if p >= first { assert Lit(s, byRow, l, p); } else { assert !Lit(s, byRow, l, p); }
      }
    } else {
      assert FillRange(s, byRow, l) == (24, -1);
      assert !Lit(s, byRow, l, p);
    }
  }

  /** Distinct (line, position) pairs name distinct cells. */
  lemma CellsApart(byRow: bool, l: int, c: int)
    requires 0 <= l < 24 && 0 <= c < 24
    ensures 0 <= Cell(byRow, l, c) < 576
    ensures forall m, p :: 0 <= m < 24 && 0 <= p < 24 && (m != l || p != c) ==> Cell(byRow, m, p) != Cell(byRow, l, c)
  {
  }

  /** A position that meets the characterisation of a forward scan is its result. */
  lemma FwdUnique(s: seq<Hp>, byRow: bool, l: int, p: int, t: bool, i: int)
    requires |s| == 576 && 0 <= l < 24 && 0 <= p <= i <= 24
    requires forall k :: p <= k < i ==> Lit(s, byRow, l, k) != t
    requires i < 24 ==> Lit(s, byRow, l, i) == t
    ensures i == ScanFwd(s, byRow, l, p, t)
  {
    var r := ScanFwd(s, byRow, l, p, t);
  }

  /** A position that meets the characterisation of a backward scan is its result. */
  lemma BackUnique(s: seq<Hp>, byRow: bool, l: int, p: int, t: bool, j: int)
    requires |s| == 576 && 0 <= l < 24 && -1 <= j <= p < 24
    requires forall k :: j < k <= p ==> Lit(s, byRow, l, k) != t
    requires j >= 0 ==> Lit(s, byRow, l, j) == t
    ensures j == ScanBack(s, byRow, l, p, t)
  {
    var r := ScanBack(s, byRow, l, p, t);
  }

  /** Filling never clears a live cell. */
  lemma FillKeepsLive(s: seq<Hp>, byRow: bool, l: int, p: int)
    requires |s| == 576 && 0 <= l < 24 && 0 <= p < 24 && Lit(s, byRow, l, p)
    ensures FilledAt(s, byRow, l, p).Truthy()
  {
    FilledSpan(s, byRow, l, p);
  }

  /**
   * _fillRows (byRow) and _fillCols (not byRow), in place: every line is
   * filled from its own values; nothing outside the fill ranges changes.
   */
  method FillLines(a: array<Hp>, byRow: bool)
    requires a.Length == 576
    modifies a
    ensures a[..] == Filled(old(a[..]), byRow)
  {
    ghost var s := a[..];
    var l := 0;
    while l < 24
      invariant 0 <= l <= 24
      invariant forall m, p :: 0 <= m < 24 && 0 <= p < 24 ==>
        a[Cell(byRow, m, p)] == if m < l then FilledAt(s, byRow, m, p) else s[Cell(byRow, m, p)]
    {
      FillLine(a, byRow, l, s);
      l := l + 1;
    }
    forall i | 0 <= i < 576 ensures a[i] == Filled(s, byRow)[i] {
      IdxDivMod(i);
      assert i == Cell(byRow, LineOf(byRow, i), PosOf(byRow, i));
    }
  }

  function LineOf(byRow: bool, i: int): int { if byRow then i / 24 else i % 24 }
  function PosOf(byRow: bool, i: int): int { if byRow then i % 24 else i / 24 }

  /** The whole grid after _fillRows (byRow) or _fillCols. */
  function Filled(s: seq<Hp>, byRow: bool): (f: seq<Hp>)
    requires |s| == 576
    ensures |f| == 576
  {
    seq(576, i requires 0 <= i < 576 => FilledAt(s, byRow, LineOf(byRow, i), PosOf(byRow, i)))
  }

  /** The scans of one iteration of _fillRows/_fillCols: where line l's fill starts and ends. */
  method LineRange(a: array<Hp>, byRow: bool, l: int, ghost s: seq<Hp>) returns (start: int, end: int)
    requires a.Length == 576 && |s| == 576 && 0 <= l < 24
    requires forall p :: 0 <= p < 24 ==> a[Cell(byRow, l, p)] == s[Cell(byRow, l, p)]
    ensures (start, end) == FillRange(s, byRow, l)
  {
    // find the first live position
    var first := ScanForward(a, byRow, l, 0, true, s);
    if first == 24 {
      // the entire line is empty
      return 24, -1;
    }
    // then the first hole after it
    var hole := ScanForward(a, byRow, l, first, false, s);
    if hole == 24 {
      // no holes
      return 24, -1;
    }
    start := hole;
    // the last live position, then the last hole before it
    var last := ScanBackward(a, byRow, l, 23, true, s);
    end := ScanBackward(a, byRow, l, last, false, s);
  }

  /** The scanning loop that walks line l forward from p while the truthiness is not t. */
  method ScanForward(a: array<Hp>, byRow: bool, l: int, p: int, t: bool, ghost s: seq<Hp>) returns (i: int)
    requires a.Length == 576 && |s| == 576 && 0 <= l < 24 && 0 <= p <= 24
    requires forall q :: 0 <= q < 24 ==> a[Cell(byRow, l, q)] == s[Cell(byRow, l, q)]
    ensures i == ScanFwd(s, byRow, l, p, t)
  {
    i := p;
    while i < 24 && a[Cell(byRow, l, i)].Truthy() != t
      invariant p <= i <= 24
      invariant ScanFwd(s, byRow, l, i, t) == ScanFwd(s, byRow, l, p, t)
    {
      assert a[Cell(byRow, l, i)] == s[Cell(byRow, l, i)];
      i := i + 1;
    }
    assert i < 24 ==> a[Cell(byRow, l, i)] == s[Cell(byRow, l, i)];
  }

  /** The scanning loop that walks line l backward from p while the truthiness is not t. */
  method ScanBackward(a: array<Hp>, byRow: bool, l: int, p: int, t: bool, ghost s: seq<Hp>) returns (j: int)
    requires a.Length == 576 && |s| == 576 && 0 <= l < 24 && -1 <= p < 24
    requires forall q :: 0 <= q < 24 ==> a[Cell(byRow, l, q)] == s[Cell(byRow, l, q)]
    ensures j == ScanBack(s, byRow, l, p, t)
  {
    j := p;
    while j >= 0 && a[Cell(byRow, l, j)].Truthy() != t
      invariant -1 <= j <= p
      invariant ScanBack(s, byRow, l, j, t) == ScanBack(s, byRow, l, p, t)
    {
      assert a[Cell(byRow, l, j)] == s[Cell(byRow, l, j)];
      j := j - 1;
    }
    assert j >= 0 ==> a[Cell(byRow, l, j)] == s[Cell(byRow, l, j)];
  }

  /** One iteration of _fillRows/_fillCols: fill line l, which still holds its original values. */
  method FillLine(a: array<Hp>, byRow: bool, l: int, ghost s: seq<Hp>)
    requires a.Length == 576 && |s| == 576 && 0 <= l < 24
    requires forall p :: 0 <= p < 24 ==> a[Cell(byRow, l, p)] == s[Cell(byRow, l, p)]
    modifies a
    ensures forall m, p :: 0 <= m < 24 && 0 <= p < 24 ==>
      a[Cell(byRow, m, p)] == if m == l then FilledAt(s, byRow, m, p) else old(a[Cell(byRow, m, p)])
  {
    var start, end := LineRange(a, byRow, l, s);
    // every cell from start to end becomes 1
    var c := start;
    while c <= end
      invariant start <= c <= 24 && (c <= end + 1 || c == start)
      invariant forall p :: 0 <= p < 24 ==>
        a[Cell(byRow, l, p)] == if start <= p < c then Finite(1) else s[Cell(byRow, l, p)]
      invariant forall m, p :: 0 <= m < 24 && 0 <= p < 24 && m != l ==>
        a[Cell(byRow, m, p)] == old(a[Cell(byRow, m, p)])
    {
      CellsApart(byRow, l, c);
      a[Cell(byRow, l, c)] := Finite(1);
      c := c + 1;
    }
    forall p | 0 <= p < 24
      ensures a[Cell(byRow, l, p)] == FilledAt(s, byRow, l, p)
    {
      assert (start <= p < c) == (start <= p <= end);
    }
  }

  // ---------------------------------------------------------------------
  // The shape
  // ---------------------------------------------------------------------

  /** The hole-filled shape, row-major: a cell is 1 when both its row fill and its column fill leave it live. */
  function Shape(hps: seq<Hp>): (cells: seq<int>)
    requires |hps| == 576
    ensures |cells| == 576
  {
    Both(Filled(hps, true), Filled(hps, false))
  }

  /** 1 where both fills are live, else 0. */
  function Both(rows: seq<Hp>, cols: seq<Hp>): (cells: seq<int>)
    requires |rows| == |cols|
    ensures |cells| == |rows| && Bits(cells)
  {
    seq(|rows|, i requires 0 <= i < |rows| => if rows[i].Truthy() && cols[i].Truthy() then 1 else 0)
  }

  predicate Bits(cells: seq<int>) { forall i :: 0 <= i < |cells| ==> cells[i] == 0 || cells[i] == 1 }

  /** cells.join(''): one digit per cell. */
  function Join(cells: seq<int>): (str: string)
    ensures |str| == |cells|
  {
    seq(|cells|, i requires 0 <= i < |cells| => if cells[i] == 1 then '1' else '0')
  }

  /** The joined string identifies a 0/1 shape: equal strings mean equal shapes. */
  lemma JoinInjective(a: seq<int>, b: seq<int>)
    requires Bits(a) && Bits(b) && Join(a) == Join(b)
    ensures a == b
  {
    assert |a| == |b|;
    forall i | 0 <= i < |a| ensures a[i] == b[i] {
      assert Join(a)[i] == Join(b)[i];
    }
  }

  /** The rectangles present in an array, in index order. */
  function Present(m: seq<Option<CellRect>>): (rs: seq<CellRect>)
    ensures forall r :: r in rs <==> Some(r) in m
  {
    if m == [] then []
    else Present(m[..|m| - 1]) + (if m[|m| - 1].Some? then [m[|m| - 1].value] else [])
  }

  /** The merged rectangles of a grid, in index order. */
  function MergedGrid(cells: seq<int>): (m: seq<Option<CellRect>>)
    requires Grid(cells)
    ensures |m| == 576
  {
    seq(576, i requires 0 <= i < 576 => MergedAt(cells, i / 24, i % 24))
  }

  function RectsOf(cells: seq<int>): seq<CellRect>
    requires Grid(cells)
  {
    Present(MergedGrid(cells))
  }

  /** Every rectangle of the shape is a merged rectangle anchored at its own top-left cell. */
  lemma RectIsMerged(cells: seq<int>, r: CellRect)
    requires Grid(cells) && r in RectsOf(cells)
    ensures 0 <= r.top < 24 && 0 <= r.left < 24 && MergedAt(cells, r.top, r.left) == Some(r)
  {
    var i :| 0 <= i < 576 && MergedGrid(cells)[i] == Some(r);
    IdxDivMod(i);
    MergedAnchored(cells, i / 24, i % 24);
  }

  /** The rectangles cover exactly the occupied cells of the shape. */
  lemma RectsCoverShape(cells: seq<int>, q: int, x: int)
    requires Grid(cells) && 0 <= q < 24 && 0 <= x < 24
    ensures cells[Idx(q, x)] != 0 <==> exists r :: r in RectsOf(cells) && r.Contains(x, q)
  {
    if cells[Idx(q, x)] != 0 {
      var q0, s := MergedCoversOccupied(cells, q, x);
      IdxSplit(q0, s);
      assert MergedGrid(cells)[Idx(q0, s)] == MergedAt(cells, q0, s);
      assert MergedAt(cells, q0, s).value in RectsOf(cells);
    }
    if r :| r in RectsOf(cells) && r.Contains(x, q) {
      RectIsMerged(cells, r);
      MergedCoversOnlyOccupied(cells, r.top, r.left, q, x);
    }
  }

  /** No cell is covered by two different rectangles of the shape. */
  lemma RectsDisjoint(cells: seq<int>, r1: CellRect, r2: CellRect, q: int, x: int)
    requires Grid(cells) && r1 in RectsOf(cells) && r2 in RectsOf(cells)
    requires r1.Contains(x, q) && r2.Contains(x, q)
    ensures r1 == r2
  {
    RectIsMerged(cells, r1);
    RectIsMerged(cells, r2);
    MergedDisjoint(cells, r1.top, r1.left, r2.top, r2.left, q, x);
  }

  /**
   * What the hole filling computes: cell i = (q, x) is in the shape iff x lies
   * between the first and last live cell of row q, and q between the first
   * and last live cell of column x.
   */
  lemma ShapeIsSpans(hps: seq<Hp>, i: int)
    requires |hps| == 576 && 0 <= i < 576
    ensures var q, x := i / 24, i % 24;
      0 <= q < 24 && 0 <= x < 24 &&
      (Shape(hps)[i] == 1 <==>
        ScanFwd(hps, true, q, 0, true) <= x <= ScanBack(hps, true, q, 23, true) &&
        ScanFwd(hps, false, x, 0, true) <= q <= ScanBack(hps, false, x, 23, true))
  {
    IdxDivMod(i);
    var q, x := i / 24, i % 24;
    FilledSpan(hps, true, q, x);
    FilledSpan(hps, false, x, q);
    assert Filled(hps, true)[i] == FilledAt(hps, true, q, x);
    assert Filled(hps, false)[i] == FilledAt(hps, false, x, q);
  }

  /** The live cells of the model all belong to the filled shape. */
  lemma ShapeHoldsLiveCells(hps: seq<Hp>, i: int)
    requires |hps| == 576 && 0 <= i < 576 && hps[i].Truthy()
    ensures Shape(hps)[i] == 1
  {
    IdxDivMod(i);
    var q, x := i / 24, i % 24;
    assert Cell(true, q, x) == i && Cell(false, x, q) == i;
    FillKeepsLive(hps, true, q, x);
    FillKeepsLive(hps, false, x, q);
    assert Filled(hps, true)[i].Truthy();
    assert Filled(hps, false)[i].Truthy();
  }

  /** The values setFromModel starts from: the hp of the atom at each grid index, 0 where there is none. */
  ghost function ModelHps(model: Vehicles.VehicleModel): (hps: seq<Hp>)
    reads model, model.cells.Values
    ensures |hps| == 576
    ensures forall i :: 0 <= i < 576 && i !in model.cells ==> hps[i] == Finite(0)
    ensures forall i :: 0 <= i < 576 && i in model.cells ==> hps[i] == model.cells[i].hp
  {
    seq(576, i reads model, model.cells.Values => if i in model.cells then model.cells[i].hp else Finite(0))
  }

  /** The first loop of setFromModel: one value per grid index, the hp of the atom there or 0. */
  method CellValues(model: Vehicles.VehicleModel) returns (hps: seq<Hp>)
    ensures hps == ModelHps(model)
  {
    hps := [];
    for i := 0 to 576
      invariant |hps| == i
      invariant forall k :: 0 <= k < i ==> hps[k] == if k in model.cells then model.cells[k].hp else Finite(0)
    {
      hps := hps + [if i in model.cells then model.cells[i].hp else Finite(0)];
    }
  }

  class AtomShape {
    /** One 0/1 digit per grid cell. */
    var cells: seq<int>
    /** cells joined, for cheap comparison. */
    var str: string
    /** The rectangles of the shape. */
    var rects: seq<CellRect>

    ghost predicate Valid()
      reads this
    {
      (cells == [] && str == [] && rects == []) ||
      (Grid(cells) && Bits(cells) && str == Join(cells) && rects == RectsOf(cells))
    }

    constructor()
      ensures Valid() && cells == [] && str == [] && rects == []
    {
      cells, str, rects := [], [], [];
    }

    /**
     * setFromModel: rebuild the filled shape from the cells' hit points; the
     * rectangles are only recomputed when the shape's string changed, which
     * loses nothing because equal strings mean equal shapes.
     */
    method SetFromModel(model: Vehicles.VehicleModel)
      requires Valid()
      modifies this
      ensures var hps := ModelHps(model);
        Valid() && cells == Shape(hps) && str == Join(cells) && rects == RectsOf(cells)
      ensures old(str) == Join(cells) ==> str == old(str) && rects == old(rects)
    {
      var hps := CellValues(model);
      var newCells := FilledShape(hps);
      var newString := Join(newCells);
      var newRects := rects;
      if str != newString {
        newRects := ShapeRects(newCells);
      } else {
        SameStringSameShape(cells, str, rects, newCells);
      }
      cells, str, rects := newCells, newString, newRects;
      assert hps == ModelHps(model);
    }
  }

  /**
   * The memo of setFromModel is sound: a stored string equal to the new
   * shape's string means the stored shape, and with it the stored
   * rectangles, are already the new ones.
   */
  lemma SameStringSameShape(cells: seq<int>, str: string, rects: seq<CellRect>, next: seq<int>)
    requires (cells == [] && str == [] && rects == []) ||
             (Grid(cells) && Bits(cells) && str == Join(cells) && rects == RectsOf(cells))
    requires Grid(next) && Bits(next) && str == Join(next)
    ensures cells == next && rects == RectsOf(next)
  {
    assert |str| == 576;
    JoinInjective(cells, next);
  }

  /** The hole filling of setFromModel: fill rows and columns separately, keep the cells both leave live. */
  method FilledShape(hps: seq<Hp>) returns (shape: seq<int>)
    requires |hps| == 576
    ensures shape == Shape(hps) && Bits(shape)
  {
    var rows := new Hp[576](i requires 0 <= i < 576 => hps[i]);
    var cols := new Hp[576](i requires 0 <= i < 576 => hps[i]);
    assert rows[..] == hps && cols[..] == hps;
    FillLines(rows, true);
    FillLines(cols, false);
    shape := CombineFills(rows, cols);
  }

  /** The rebuild of setFromModel: mergeRows, then its defined entries in index order. */
  method ShapeRects(cells: seq<int>) returns (rects: seq<CellRect>)
    requires Grid(cells)
    ensures rects == RectsOf(cells)
  {
    var merged := MergeRows(cells);
    MergedGridOf(cells, merged);
    rects := CollectRects(merged);
  }

  /** The last loop of the hole filling: keep the cells that both fills leave live. */
  method CombineFills(rows: array<Hp>, cols: array<Hp>) returns (shape: seq<int>)
    requires rows.Length == cols.Length
    ensures shape == Both(rows[..], cols[..])
  {
    var next := new int[rows.Length];
    var i := 0;
    while i < rows.Length
      invariant 0 <= i <= rows.Length
      invariant forall k :: 0 <= k < i ==> next[k] == if rows[k].Truthy() && cols[k].Truthy() then 1 else 0
    {
      next[i] := if rows[i].Truthy() && cols[i].Truthy() then 1 else 0;
      i := i + 1;
    }
    shape := next[..];
  }

  /** The rebuild loop of setFromModel: the defined entries, in index order. */
  method CollectRects(merged: seq<Option<CellRect>>) returns (rs: seq<CellRect>)
    ensures rs == Present(merged)
  {
    rs := [];
    var k := 0;
    while k < |merged|
      invariant 0 <= k <= |merged|
      invariant rs == Present(merged[..k])
    {
      if merged[k].Some? {
        rs := rs + [merged[k].value];
      }
      assert merged[..k + 1][..k] == merged[..k];
      k := k + 1;
    }
    assert merged[..|merged|] == merged;
  }

  /** The array mergeRows returns is the merged grid. */
  lemma MergedGridOf(cells: seq<int>, merged: seq<Option<CellRect>>)
    requires Grid(cells) && |merged| == 576
    requires forall q, x :: 0 <= q < 24 && 0 <= x < 24 ==> merged[Idx(q, x)] == MergedAt(cells, q, x)
    ensures merged == MergedGrid(cells)
  {
    forall k | 0 <= k < 576 ensures merged[k] == MergedGrid(cells)[k] {
      IdxDivMod(k);
    }
  }
}
