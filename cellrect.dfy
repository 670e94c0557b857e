/**
 * CellRect: an axis-aligned rectangle of cells on the 24 x 24 atom grid, and
 * the two fill algorithms that turn a grid of occupied cells into rectangles.
 *
 * A CellRect is modelled as a value. Every JavaScript setter writes the
 * receiver (or the `dest` argument) and returns it; here the setters return
 * the updated rectangle and the caller stores it back.
 */
module CellRects {
  import opened Util

  datatype CellRect = CellRect(left: int, top: int, width: int, height: int)
  {
    /** The right and bottom edges are derived, inclusive. */
    function Right(): int { left + width - 1 }
    function Bottom(): int { top + height - 1 }

    /** Does the rectangle cover cell column `x` of row `y`? */
    predicate Contains(x: int, y: int) { left <= x <= Right() && top <= y <= Bottom() }
  }

  /** setLRTB: the rectangle spanning columns l..r and rows t..b inclusive. */
  function SetLRTB(l: int, r: int, t: int, b: int): (rect: CellRect)
    ensures rect.left == l && rect.Right() == r && rect.top == t && rect.Bottom() == b
    ensures forall x, y :: rect.Contains(x, y) <==> l <= x <= r && t <= y <= b
  {
    CellRect(l, t, r - l + 1, b - t + 1)
  }

  /** combine: the bounding box of two rectangles. */
  function Combine(a: CellRect, b: CellRect): (rect: CellRect)
    ensures rect.left == Min(a.left, b.left) && rect.Right() == Max(a.Right(), b.Right())
    ensures rect.top == Min(a.top, b.top) && rect.Bottom() == Max(a.Bottom(), b.Bottom())
    ensures forall x, y :: a.Contains(x, y) || b.Contains(x, y) ==> rect.Contains(x, y)
  {
    SetLRTB(Min(a.left, b.left), Max(a.Right(), b.Right()),
            Min(a.top, b.top), Max(a.Bottom(), b.Bottom()))
  }

  /** clip: the intersection of two rectangles (empty when its width or height is not positive). */
  function Clip(a: CellRect, b: CellRect): (rect: CellRect)
    ensures forall x, y :: rect.Contains(x, y) <==> a.Contains(x, y) && b.Contains(x, y)
  {
    SetLRTB(Max(a.left, b.left), Min(a.Right(), b.Right()),
            Max(a.top, b.top), Min(a.Bottom(), b.Bottom()))
  }

  /** getArea. */
  function Area(rect: CellRect): (n: int)
    ensures n == rect.width * rect.height
    ensures rect.width >= 1 && rect.height >= 1 ==> n >= rect.width && n >= rect.height
  {
    rect.width * rect.height
  }

  // ---------------------------------------------------------------------
  // The grid. The fill algorithms are only ever run on the 24 x 24 atom
  // grid (576 cells, row-major); cell (row q, column x) is at 24 * q + x.
  // ---------------------------------------------------------------------

  function Idx(q: int, x: int): int { 24 * q + x }

  predicate Grid(cells: seq<int>) { |cells| == 576 }

  /** Row and column of a grid index. */
  lemma IdxDivMod(i: int)
    requires 0 <= i < 576
    ensures 0 <= i / 24 < 24 && 0 <= i % 24 < 24 && Idx(i / 24, i % 24) == i
  {
  }

  /** A row and a column are recovered from their index. */
  lemma IdxSplit(q: int, x: int)
    requires 0 <= q < 24 && 0 <= x < 24
    ensures 0 <= Idx(q, x) < 576 && Idx(q, x) / 24 == q && Idx(q, x) % 24 == x
  {
  }

  /** A cell is occupied when its value is truthy (non-zero). */
  predicate Occupied(cells: seq<int>, q: int, x: int)
    requires Grid(cells)
  {
    0 <= q < 24 && 0 <= x < 24 && cells[Idx(q, x)] != 0
  }

  /** Length of the run of occupied cells of row q starting at column x, looking only left of column `lim`. */
  function RunLenTo(cells: seq<int>, q: int, x: int, lim: int): (n: nat)
    requires Grid(cells) && 0 <= q < 24 && 0 <= x <= 24 && lim <= 24
    ensures x + n <= 24 && (x >= lim ==> n == 0)
    decreases lim - x
  {
    if x >= lim || !Occupied(cells, q, x) then 0 else 1 + RunLenTo(cells, q, x + 1, lim)
  }

  /** A row run starts at (q, x): occupied, with nothing occupied just left of it. */
  predicate RunStart(cells: seq<int>, q: int, x: int)
    requires Grid(cells)
  {
    Occupied(cells, q, x) && (x == 0 || !Occupied(cells, q, x - 1))
  }

  /** Width of the row run starting at (q, x), or 0 when no run starts there. */
  function RunWidth(cells: seq<int>, q: int, x: int): nat
    requires Grid(cells) && 0 <= q < 24 && 0 <= x < 24
  {
    if RunStart(cells, q, x) then RunLenTo(cells, q, x, 24) else 0
  }

  /** Number of consecutive rows from q down whose run at column x has the same width as row q's. */
  function ChainHeight(cells: seq<int>, q: int, x: int): (h: nat)
    requires Grid(cells) && 0 <= q < 24 && 0 <= x < 24
    ensures 1 <= h && q + h <= 24
    decreases 24 - q
  {
    if q + 1 < 24 && RunWidth(cells, q + 1, x) == RunWidth(cells, q, x)
    then 1 + ChainHeight(cells, q + 1, x)
    else 1
  }

  /** What mergeRows leaves at (q, x): the first row of each stack of equal-width runs, holding the whole stack. */
  function MergedAt(cells: seq<int>, q: int, x: int): Option<CellRect>
    requires Grid(cells) && 0 <= q < 24 && 0 <= x < 24
  {
    if RunWidth(cells, q, x) == 0 then None
    else if q > 0 && RunWidth(cells, q - 1, x) == RunWidth(cells, q, x) then None
    else Some(CellRect(x, q, RunWidth(cells, q, x), ChainHeight(cells, q, x)))
  }

  /**
   * The array during the merge pass: the pair of rows (p, p + 1) has been
   * merged at column x when p > k, or p == k and x < c.
   */
  predicate PairDone(k: int, c: int, p: int, x: int) { p > k || (p == k && x < c) }

  function MergingAt(cells: seq<int>, k: int, c: int, q: int, x: int): Option<CellRect>
    requires Grid(cells) && 0 <= q < 24 && 0 <= x < 24
  {
    if RunWidth(cells, q, x) == 0 then None
    else if q > 0 && PairDone(k, c, q - 1, x) && RunWidth(cells, q - 1, x) == RunWidth(cells, q, x) then None
    else Some(CellRect(x, q, RunWidth(cells, q, x),
                       if PairDone(k, c, q, x) then ChainHeight(cells, q, x) else 1))
  }

  // ---------------------------------------------------------------------
  // Facts about runs and stacks
  // ---------------------------------------------------------------------

  lemma {:induction false} RunLenToStep(cells: seq<int>, q: int, s: int, lim: int)
    requires Grid(cells) && 0 <= q < 24 && 0 <= s <= lim < 24
    ensures RunLenTo(cells, q, s, lim + 1) ==
            RunLenTo(cells, q, s, lim) +
            (if forall k :: s <= k <= lim ==> Occupied(cells, q, k) then 1 else 0)
    decreases lim - s
  {
    if s < lim && Occupied(cells, q, s) {
      RunLenToStep(cells, q, s + 1, lim);
      if forall k :: s + 1 <= k <= lim ==> Occupied(cells, q, k) {
        assert forall k :: s <= k <= lim ==> Occupied(cells, q, k);
      }
    }
  }

  /** Every cell of a run is occupied. */
  lemma {:induction false} RunCellsOccupied(cells: seq<int>, q: int, s: int, lim: int, x: int)
    requires Grid(cells) && 0 <= q < 24 && 0 <= s <= 24 && lim <= 24
    requires s <= x < s + RunLenTo(cells, q, s, lim)
    ensures Occupied(cells, q, x)
    decreases x - s
  {
    if x > s {
      RunCellsOccupied(cells, q, s + 1, lim, x);
    }
  }

  /** A run reaches at least as far as its occupied cells go. */
  lemma {:induction false} RunLenCovers(cells: seq<int>, q: int, s: int, x: int)
    requires Grid(cells) && 0 <= q < 24 && 0 <= s <= x < 24
    requires forall k :: s <= k <= x ==> Occupied(cells, q, k)
    ensures x < s + RunLenTo(cells, q, s, 24)
    decreases x - s
  {
    if s < x {
      RunLenCovers(cells, q, s + 1, x);
    }
  }

  /** The start of the row run holding an occupied cell. */
  lemma {:induction false} FindRunStart(cells: seq<int>, q: int, x: int) returns (s: int)
    requires Grid(cells) && Occupied(cells, q, x)
    ensures 0 <= s <= x && RunStart(cells, q, s) && x < s + RunWidth(cells, q, s)
    ensures forall k :: s <= k <= x ==> Occupied(cells, q, k)
    decreases x
  {
    if x == 0 || !Occupied(cells, q, x - 1) {
      s := x;
    } else {
      s := FindRunStart(cells, q, x - 1);
    }
    RunLenCovers(cells, q, s, x);
  }

  /** Walking d rows down a stack keeps the width and shortens the remaining height by d. */
  lemma {:induction false} ChainShift(cells: seq<int>, q: int, x: int, d: nat)
    requires Grid(cells) && 0 <= q < 24 && 0 <= x < 24
    requires d < ChainHeight(cells, q, x)
    ensures RunWidth(cells, q + d, x) == RunWidth(cells, q, x)
    ensures ChainHeight(cells, q, x) == d + ChainHeight(cells, q + d, x)
    decreases d
  {
    if d > 0 {
      ChainShift(cells, q + 1, x, d - 1);
    }
  }

  /** The rectangle covering a cell comes from that cell's row run, and lies in a stack of equal runs. */
  lemma CoveringRun(cells: seq<int>, q0: int, s: int, q: int, x: int)
    requires Grid(cells) && 0 <= q0 < 24 && 0 <= s < 24
    requires MergedAt(cells, q0, s).Some? && MergedAt(cells, q0, s).value.Contains(x, q)
    ensures 0 <= q < 24 && RunStart(cells, q, s)
    ensures RunWidth(cells, q, s) == MergedAt(cells, q0, s).value.width
    ensures s <= x < s + RunWidth(cells, q, s)
  {
    ChainShift(cells, q0, s, q - q0);
  }

  // ---------------------------------------------------------------------
  // What the merged rectangles promise
  // ---------------------------------------------------------------------

  /** Each rectangle sits at its own top-left index and lies inside the grid. */
  lemma MergedAnchored(cells: seq<int>, q: int, x: int)
    requires Grid(cells) && 0 <= q < 24 && 0 <= x < 24 && MergedAt(cells, q, x).Some?
    ensures var rect := MergedAt(cells, q, x).value;
      rect.left == x && rect.top == q && rect.width >= 1 && rect.height >= 1 &&
      rect.Right() < 24 && rect.Bottom() < 24
  {
  }

  /** Soundness: every cell a merged rectangle covers is occupied. */
  lemma MergedCoversOnlyOccupied(cells: seq<int>, q0: int, s: int, q: int, x: int)
    requires Grid(cells) && 0 <= q0 < 24 && 0 <= s < 24
    requires MergedAt(cells, q0, s).Some? && MergedAt(cells, q0, s).value.Contains(x, q)
    ensures Occupied(cells, q, x)
  {
    CoveringRun(cells, q0, s, q, x);
    RunCellsOccupied(cells, q, s, 24, x);
  }

  /** Completeness: every occupied cell is covered by some merged rectangle. */
  lemma MergedCoversOccupied(cells: seq<int>, q: int, x: int) returns (q0: int, s: int)
    requires Grid(cells) && Occupied(cells, q, x)
    ensures 0 <= q0 <= q && 0 <= s <= x
    ensures MergedAt(cells, q0, s).Some? && MergedAt(cells, q0, s).value.Contains(x, q)
  {
    s := FindRunStart(cells, q, x);
    q0 := StackTop(cells, q, s);
    ChainShift(cells, q0, s, q - q0);
  }

  /** The first row of the stack of equal runs that holds row q's run at column s. */
  lemma {:induction false} StackTop(cells: seq<int>, q: int, s: int) returns (q0: int)
    requires Grid(cells) && 0 <= q < 24 && 0 <= s < 24 && RunWidth(cells, q, s) > 0
    ensures 0 <= q0 <= q < q0 + ChainHeight(cells, q0, s)
    ensures MergedAt(cells, q0, s).Some?
    decreases q
  {
    if q == 0 || RunWidth(cells, q - 1, s) != RunWidth(cells, q, s) {
      q0 := q;
    } else {
      q0 := StackTop(cells, q - 1, s);
      ChainShift(cells, q0, s, q - 1 - q0);
      assert ChainHeight(cells, q - 1, s) == 1 + ChainHeight(cells, q, s);
    }
  }

  /** Two merged rectangles covering the same cell start at the same column. */
  lemma MergedSameStart(cells: seq<int>, q1: int, s1: int, q2: int, s2: int, q: int, x: int)
    requires Grid(cells) && 0 <= q1 < 24 && 0 <= s1 < 24 && 0 <= q2 < 24 && 0 <= s2 < 24
    requires MergedAt(cells, q1, s1).Some? && MergedAt(cells, q1, s1).value.Contains(x, q)
    requires MergedAt(cells, q2, s2).Some? && MergedAt(cells, q2, s2).value.Contains(x, q)
    ensures s1 == s2
  {
    CoveringRun(cells, q1, s1, q, x);
    CoveringRun(cells, q2, s2, q, x);
    RunsMeet(cells, q, s1, s2, x);
  }

  /** Two row runs of the same row that share a cell start at the same column. */
  lemma RunsMeet(cells: seq<int>, q: int, s1: int, s2: int, x: int)
    requires Grid(cells) && 0 <= q < 24 && 0 <= s1 < 24 && 0 <= s2 < 24
    requires RunStart(cells, q, s1) && s1 <= x < s1 + RunWidth(cells, q, s1)
    requires RunStart(cells, q, s2) && s2 <= x < s2 + RunWidth(cells, q, s2)
    ensures s1 == s2
  {
    if s1 != s2 {
      var lo, hi := if s1 < s2 then s1 else s2, if s1 < s2 then s2 else s1;
      RunCellsOccupied(cells, q, lo, 24, hi - 1);
      assert false;
    }
  }

  /** Disjointness: two merged rectangles covering the same cell are the same rectangle. */
  lemma MergedDisjoint(cells: seq<int>, q1: int, s1: int, q2: int, s2: int, q: int, x: int)
    requires Grid(cells) && 0 <= q1 < 24 && 0 <= s1 < 24 && 0 <= q2 < 24 && 0 <= s2 < 24
    requires MergedAt(cells, q1, s1).Some? && MergedAt(cells, q1, s1).value.Contains(x, q)
    requires MergedAt(cells, q2, s2).Some? && MergedAt(cells, q2, s2).value.Contains(x, q)
    ensures q1 == q2 && s1 == s2
  {
    MergedSameStart(cells, q1, s1, q2, s2, q, x);
    if q1 != q2 {
      var lo, hi := if q1 < q2 then q1 else q2, if q1 < q2 then q2 else q1;
      ChainShift(cells, lo, s1, hi - lo);
      ChainShift(cells, lo, s1, hi - 1 - lo);
      assert false;
    }
  }

  // ---------------------------------------------------------------------
  // The algorithms
  // ---------------------------------------------------------------------

  /** FillAlgorithms.basic: one 1 x 1 rectangle per occupied cell, at that cell's index. */
  method Basic(cells: seq<int>) returns (rects: seq<Option<CellRect>>)
    requires Grid(cells)
    ensures |rects| == 576
    ensures forall q, x :: 0 <= q < 24 && 0 <= x < 24 ==>
      (rects[Idx(q, x)].Some? <==> Occupied(cells, q, x))
    ensures forall q, x :: 0 <= q < 24 && 0 <= x < 24 && rects[Idx(q, x)].Some? ==>
      rects[Idx(q, x)].value == CellRect(x, q, 1, 1)
  {
    var a := new Option<CellRect>[576](_ => None);
    var q := 0;
    while q < 24
      invariant 0 <= q <= 24
      invariant forall r, x :: 0 <= r < 24 && 0 <= x < 24 ==>
        a[Idx(r, x)] == (if r < q && Occupied(cells, r, x) then Some(CellRect(x, r, 1, 1)) else None)
    {
      var x := 0;
      while x < 24
        invariant 0 <= x <= 24
        invariant forall r, y :: 0 <= r < 24 && 0 <= y < 24 ==>
          a[Idx(r, y)] == (if (r < q || (r == q && y < x)) && Occupied(cells, r, y)
                           then Some(CellRect(y, r, 1, 1)) else None)
      {
        if cells[Idx(q, x)] != 0 {
          a[Idx(q, x)] := Some(CellRect(x, q, 1, 1));
        }
        x := x + 1;
      }
      q := q + 1;
    }
    rects := a[..];
  }

  /**
   * FillAlgorithms.mergeRows: first one rectangle per maximal run of each
   * row, stored at the run's first cell and widened as the run goes on; then,
   * from the second-last row up to the first, a rectangle absorbs the one
   * directly below it (same column, same width), which is deleted.
   */
  method MergeRows(cells: seq<int>) returns (rects: seq<Option<CellRect>>)
    requires Grid(cells)
    ensures |rects| == 576
    ensures forall q, x :: 0 <= q < 24 && 0 <= x < 24 ==> rects[Idx(q, x)] == MergedAt(cells, q, x)
  {
    var a := new Option<CellRect>[576](_ => None);
    ScanRows(cells, a);
    MergeStacks(cells, a);
    rects := a[..];
  }

  /** The array during the row pass, once rows before q and columns before x of row q are scanned. */
  function ScanAt(cells: seq<int>, q: int, x: int, r: int, y: int): Option<CellRect>
    requires Grid(cells) && 0 <= q <= 24 && 0 <= x <= 24 && 0 <= r < 24 && 0 <= y < 24
  {
    if (r < q || (r == q && y < x)) && RunStart(cells, r, y)
    then Some(CellRect(y, r, RunLenTo(cells, r, y, if r < q then 24 else x), 1))
    else None
  }

  /** One column of the row pass: the run in progress (starting at column `start`, -1 for none) grows or a new one begins. */
  lemma ScanStep(cells: seq<int>, q: int, x: int, start: int, r: int, y: int)
    requires Grid(cells) && 0 <= q < 24 && 0 <= x < 24 && 0 <= r < 24 && 0 <= y < 24
    requires start == -1 <==> (x == 0 || !Occupied(cells, q, x - 1))
    requires start != -1 ==> 0 <= start < x && RunStart(cells, q, start) &&
                             forall k :: start <= k < x ==> Occupied(cells, q, k)
    ensures start != -1 ==> ScanAt(cells, q, x, q, start).Some?
    ensures ScanAt(cells, q, x + 1, r, y) ==
      if r == q && y == x && Occupied(cells, q, x) && start == -1 then Some(CellRect(x, q, 1, 1))
      else if r == q && y == start && Occupied(cells, q, x) && start != -1
      then Some(ScanAt(cells, q, x, r, y).value.(width := ScanAt(cells, q, x, r, y).value.width + 1))
      else ScanAt(cells, q, x, r, y)
  {
    if r == q && y < x {
      RunLenToStep(cells, q, y, x);
      if start != -1 && y < start {
        assert !Occupied(cells, q, start - 1);
      }
    }
  }

  /** The first pass of mergeRows: one rectangle per maximal row run, at the run's first cell. */
  method ScanRows(cells: seq<int>, a: array<Option<CellRect>>)
    requires Grid(cells) && a.Length == 576
    requires forall i :: 0 <= i < 576 ==> a[i] == None
    modifies a
    ensures forall r, y :: 0 <= r < 24 && 0 <= y < 24 ==> a[Idx(r, y)] == ScanAt(cells, 24, 0, r, y)
  {
    var q := 0;
    while q < 24
      invariant 0 <= q <= 24
      invariant forall r, y :: 0 <= r < 24 && 0 <= y < 24 ==> a[Idx(r, y)] == ScanAt(cells, q, 0, r, y)
    {
      var x := 0;
      var cur := -1;          // index of the rectangle of the run in progress, -1 for none
      ghost var start := -1;  // its column
      while x < 24
        invariant 0 <= x <= 24
        invariant forall r, y :: 0 <= r < 24 && 0 <= y < 24 ==> a[Idx(r, y)] == ScanAt(cells, q, x, r, y)
        invariant start == -1 <==> (x == 0 || !Occupied(cells, q, x - 1))
        invariant start != -1 ==> 0 <= start < x && RunStart(cells, q, start) &&
                                  forall k :: start <= k < x ==> Occupied(cells, q, k)
        invariant cur == (if start == -1 then -1 else Idx(q, start))
      {
        ghost var before := a[..];
        ghost var (s0, c0) := (start, x);
        if cells[Idx(q, x)] != 0 {
          if cur != -1 {
            a[cur] := Some(a[cur].value.(width := a[cur].value.width + 1));
          } else {
            a[Idx(q, x)] := Some(CellRect(x, q, 1, 1));
            cur := Idx(q, x);
            start := x;
          }
        } else {
          cur := -1;
          start := -1;
        }
        x := x + 1;
        forall r, y | 0 <= r < 24 && 0 <= y < 24
          ensures a[Idx(r, y)] == ScanAt(cells, q, x, r, y)
        {
          ScanStep(cells, q, c0, s0, r, y);
          assert a[Idx(r, y)] == if Idx(r, y) == Idx(q, c0) || (s0 != -1 && Idx(r, y) == Idx(q, s0))
                                 then a[Idx(r, y)] else before[Idx(r, y)];
        }
      }
      forall r, y | 0 <= r < 24 && 0 <= y < 24
        ensures ScanAt(cells, q, 24, r, y) == ScanAt(cells, q + 1, 0, r, y)
      {
      }
      q := q + 1;
    }
  }

  /** One column of the merge pass: only the cell of row k and the one below it can change. */
  lemma MergeStep(cells: seq<int>, k: int, c: int, r: int, y: int)
    requires Grid(cells) && 0 <= k < 23 && 0 <= c < 24 && 0 <= r < 24 && 0 <= y < 24
    ensures var top, below := MergingAt(cells, k, c, k, c), MergingAt(cells, k, c, k + 1, c);
      var merge := top.Some? && below.Some? && top.value.width == below.value.width;
      MergingAt(cells, k, c + 1, r, y) ==
        if r == k && y == c && merge then Some(top.value.(height := top.value.height + below.value.height))
        else if r == k + 1 && y == c && merge then None
        else MergingAt(cells, k, c, r, y)
  {
  }

  /** The second pass of mergeRows: from the second-last row up, absorb the equal-width rectangle below. */
  method MergeStacks(cells: seq<int>, a: array<Option<CellRect>>)
    requires Grid(cells) && a.Length == 576
    requires forall r, y :: 0 <= r < 24 && 0 <= y < 24 ==> a[Idx(r, y)] == ScanAt(cells, 24, 0, r, y)
    modifies a
    ensures forall q, x :: 0 <= q < 24 && 0 <= x < 24 ==> a[Idx(q, x)] == MergedAt(cells, q, x)
  {
    forall r, y | 0 <= r < 24 && 0 <= y < 24
      ensures ScanAt(cells, 24, 0, r, y) == MergingAt(cells, 22, 0, r, y)
    {
    }
    var k := 22;
    while k >= 0
      invariant -1 <= k <= 22
      invariant forall r, y :: 0 <= r < 24 && 0 <= y < 24 ==> a[Idx(r, y)] == MergingAt(cells, k, 0, r, y)
    {
      var c := 0;
      while c < 24
        invariant 0 <= c <= 24
        invariant forall r, y :: 0 <= r < 24 && 0 <= y < 24 ==> a[Idx(r, y)] == MergingAt(cells, k, c, r, y)
      {
        ghost var before := a[..];
        var i, j := Idx(k, c), Idx(k + 1, c);
        if a[i].Some? && a[j].Some? && a[i].value.width == a[j].value.width {
          a[i] := Some(a[i].value.(height := a[i].value.height + a[j].value.height));
          a[j] := None;
        }
        c := c + 1;
        forall r, y | 0 <= r < 24 && 0 <= y < 24
          ensures a[Idx(r, y)] == MergingAt(cells, k, c, r, y)
        {
          MergeStep(cells, k, c - 1, r, y);
          assert a[Idx(r, y)] == if Idx(r, y) == i || Idx(r, y) == j then a[Idx(r, y)] else before[Idx(r, y)];
        }
      }
      forall r, y | 0 <= r < 24 && 0 <= y < 24
        ensures MergingAt(cells, k, 24, r, y) == MergingAt(cells, k - 1, 0, r, y)
      {
      }
      k := k - 1;
    }
    forall r, y | 0 <= r < 24 && 0 <= y < 24
      ensures MergingAt(cells, -1, 0, r, y) == MergedAt(cells, r, y)
    {
    }
  }
}
