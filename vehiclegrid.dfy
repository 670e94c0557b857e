/**
 * The vehicle's 24×24 cell grid as `loadFromData` fills it: which atoms a
 * dense id array places where, the cells each atom covers, and the spatial
 * hash that results when every atom writes itself into all of its cells,
 * later atoms over earlier ones.
 */
module VehicleGrid {
  import opened Parts

  const AtomGridSize: int := 24
  const NumCells: int := AtomGridSize * AtomGridSize

  /** The hash index of cell (i, j). */
  function CellIndex(i: int, j: int): int
  {
    i + j * AtomGridSize
  }

  /**
   * The atoms a dense id array asks for, in order: the index and the id of
   * every non-zero entry.
   */
  function Placed(ids: seq<int>): (r: seq<(int, int)>)
    ensures |r| <= |ids|
    ensures forall k :: 0 <= k < |r| ==> 0 <= r[k].0 < |ids| && r[k].1 == ids[r[k].0] && r[k].1 != 0
  {
    if ids == [] then []
    else
      var n := |ids| - 1;
      Placed(ids[..n]) + (if ids[n] != 0 then [(n, ids[n])] else [])
  }

  /** Placing one more entry of the id array. */
  lemma PlacedSnoc(ids: seq<int>, idx: nat)
    requires idx < |ids|
    ensures Placed(ids[..idx + 1]) == Placed(ids[..idx]) + (if ids[idx] != 0 then [(idx, ids[idx])] else [])
  {
    assert ids[..idx + 1][..idx] == ids[..idx];
  }

  /** Every non-zero entry of the id array is placed, at its own index. */
  lemma {:induction false} PlacedComplete(ids: seq<int>, idx: nat)
    requires idx < |ids| && ids[idx] != 0
    ensures (idx, ids[idx]) in Placed(ids)
  {
    var n := |ids| - 1;
    if idx < n {
      PlacedComplete(ids[..n], idx);
    }
  }

  /** The cells of column x from row j0, `h` of them, top to bottom. */
  function Column(x: int, j0: int, h: int): (r: seq<int>)
    ensures |r| == if h <= 0 then 0 else h
  {
    if h <= 0 then [] else Column(x, j0, h - 1) + [CellIndex(x, j0 + h - 1)]
  }

  /**
   * The cells of the w×h patch at (i0, j0) in the order the painting loops
   * of `loadFromData` visit them: column by column, each top to bottom.
   */
  function Cells(i0: int, j0: int, w: int, h: int): seq<int>
  {
    if w <= 0 then [] else Cells(i0, j0, w - 1, h) + Column(i0 + w - 1, j0, h)
  }

  /** A cell (x, y) inside the patch is one of its cells. */
  lemma {:induction false} CellsCover(i0: int, j0: int, w: int, h: int, x: int, y: int)
    requires i0 <= x < i0 + w && j0 <= y < j0 + h
    ensures CellIndex(x, y) in Cells(i0, j0, w, h)
  {
    if x < i0 + w - 1 {
      CellsCover(i0, j0, w - 1, h, x, y);
    } else {
      ColumnCover(x, j0, h, y);
    }
  }

  lemma {:induction false} ColumnCover(x: int, j0: int, h: int, y: int)
    requires j0 <= y < j0 + h
    ensures CellIndex(x, y) in Column(x, j0, h)
  {
    if y < j0 + h - 1 {
      ColumnCover(x, j0, h - 1, y);
    }
  }

  /** The hash after writing `a` into the cells `cs`, one after the other. */
  function PaintCells(m: map<int, Atom>, cs: seq<int>, a: Atom): map<int, Atom>
  {
    if cs == [] then m else PaintCells(m, cs[..|cs| - 1], a)[cs[|cs| - 1] := a]
  }

  /** Writing into cells sets exactly those cells to the atom and keeps the others. */
  lemma {:induction false} PaintCellsEffect(m: map<int, Atom>, cs: seq<int>, a: Atom)
    ensures forall c :: c in PaintCells(m, cs, a) <==> c in m || c in cs
    ensures forall c :: c in cs ==> PaintCells(m, cs, a)[c] == a
    ensures forall c :: c in m && c !in cs ==> PaintCells(m, cs, a)[c] == m[c]
  {
    if cs != [] {
      var init := cs[..|cs| - 1];
      PaintCellsEffect(m, init, a);
      assert cs == init + [cs[|cs| - 1]];
    }
  }

  /** Writing into `cs` and then into `ds` is writing into `cs + ds`. */
  lemma {:induction false} PaintCellsAppend(m: map<int, Atom>, cs: seq<int>, ds: seq<int>, a: Atom)
    ensures PaintCells(m, cs + ds, a) == PaintCells(PaintCells(m, cs, a), ds, a)
    decreases |ds|
  {
    if ds == [] {
      assert cs + ds == cs;
    } else {
      var n := |ds| - 1;
      PaintCellsAppend(m, cs, ds[..n], a);
      assert (cs + ds)[..|cs + ds| - 1] == cs + ds[..n];
    }
  }

  /** The cells atom `a` covers. */
  function Footprint(a: Atom): seq<int>
  {
    Cells(a.i, a.j, a.w, a.h)
  }

  /** The hash after every atom of `s`, in order, has written itself into its footprint. */
  function PaintAll(m: map<int, Atom>, s: seq<Atom>): map<int, Atom>
  {
    if s == [] then m
    else
      var a := s[|s| - 1];
      PaintCells(PaintAll(m, s[..|s| - 1]), Footprint(a), a)
  }

  lemma PaintAllSnoc(m: map<int, Atom>, s: seq<Atom>, a: Atom)
    ensures PaintAll(m, s + [a]) == PaintCells(PaintAll(m, s), Footprint(a), a)
  {
    assert (s + [a])[..|s|] == s;
  }

  /**
   * After painting, every cell of every atom's footprint is in the hash,
   * and every hash entry is an old entry or a cell of the atom it names.
   */
  lemma {:induction false} PaintAllEffect(m: map<int, Atom>, s: seq<Atom>)
    ensures forall a, c :: a in s && c in Footprint(a) ==> c in PaintAll(m, s)
    ensures forall c :: c in PaintAll(m, s) ==>
      (c in m && PaintAll(m, s)[c] == m[c]) || (PaintAll(m, s)[c] in s && c in Footprint(PaintAll(m, s)[c]))
  {
    if s != [] {
      var init := s[..|s| - 1];
      var last := s[|s| - 1];
      PaintAllEffect(m, init);
      PaintCellsEffect(PaintAll(m, init), Footprint(last), last);
      assert s == init + [last];
    }
  }

  /** The last atom painted owns every cell of its footprint. */
  lemma LastPainted(m: map<int, Atom>, s: seq<Atom>)
    requires s != []
    ensures forall c :: c in Footprint(s[|s| - 1]) ==> c in PaintAll(m, s) && PaintAll(m, s)[c] == s[|s| - 1]
  {
    PaintCellsEffect(PaintAll(m, s[..|s| - 1]), Footprint(s[|s| - 1]), s[|s| - 1]);
  }
}
