/**
 * The physics component's pure parts: its category flags, what a
 * simulation proxy knows of the component, and the sorted-list difference
 * `subscribe` and `unsubscribe` use to find which event names appeared or
 * disappeared.
 */
module Physics {
  import opened Util

  /** `Physics.Category`: Vehicle 1, Scrap 2, Arena 4; a mask is the set of its flags. */
  datatype Category = Vehicle | Scrap | Arena

  type CategoryMask = set<Category>

  const NONE: CategoryMask := {}
  /** `All` is -1: every bit set, so every named category. */
  const ALL: CategoryMask := {Vehicle, Scrap, Arena}

  /** A vehicle's physics component sets its category to Vehicle; the prototype default is All. */
  const VEHICLE_CATEGORY: CategoryMask := {Vehicle}

  /**
   * A physics component as the simulation's proxies and collision reports
   * see it: an identity and its (prototype-level, never reassigned)
   * category.
   */
  datatype Actor = Actor(handle: nat, category: CategoryMask)

  // ---------------------------------------------------------------------
  // String order, as the default `Array.prototype.sort` compares strings.
  // ---------------------------------------------------------------------

  /** `a` sorts no later than `b`: code unit by code unit, a prefix first. */
  predicate Le(a: string, b: string)
  {
    a == [] || (b != [] && (a[0] < b[0] || (a[0] == b[0] && Le(a[1..], b[1..]))))
  }

  lemma {:induction false} LeAntisymmetric(a: string, b: string)
    requires Le(a, b) && Le(b, a)
    ensures a == b
  {
    if a != [] && b != [] {
      LeAntisymmetric(a[1..], b[1..]);
      assert a == [a[0]] + a[1..] && b == [b[0]] + b[1..];
    }
  }

  lemma {:induction false} LeTotal(a: string, b: string)
    ensures Le(a, b) || Le(b, a)
  {
    if a != [] && b != [] && a[0] == b[0] {
      LeTotal(a[1..], b[1..]);
    }
  }

  lemma {:induction false} LeTransitive(a: string, b: string, c: string)
    requires Le(a, b) && Le(b, c)
    ensures Le(a, c)
  {
    if a != [] && b != [] && c != [] && a[0] == b[0] && b[0] == c[0] {
      LeTransitive(a[1..], b[1..], c[1..]);
    }
  }

  predicate Sorted(s: seq<string>)
  {
    forall i, j :: 0 <= i < j < |s| ==> Le(s[i], s[j])
  }

  /** Insert `x` before the first element it sorts no later than. */
  function Insert(x: string, s: seq<string>): (r: seq<string>)
    ensures multiset(r) == multiset(s) + multiset{x}
    ensures |r| == |s| + 1
  {
    if s == [] then [x]
    else if Le(x, s[0]) then [x] + s
    else
      assert s == [s[0]] + s[1..];
      [s[0]] + Insert(x, s[1..])
  }

  /** The default `sort` on an array of strings (insertion sort: the order, not the algorithm, is what matters). */
  function Sort(s: seq<string>): (r: seq<string>)
    ensures multiset(r) == multiset(s)
    ensures |r| == |s|
  {
    if s == [] then []
    else
      assert s == [s[0]] + s[1..];
      Insert(s[0], Sort(s[1..]))
  }

  lemma {:induction false} InsertSorted(x: string, s: seq<string>)
    requires Sorted(s)
    ensures Sorted(Insert(x, s))
  {
    if s != [] && !Le(x, s[0]) {
      var rest := s[1..];
      assert Sorted(rest) by {
        assert forall i :: 0 <= i < |rest| ==> rest[i] == s[i + 1];
      }
      InsertSorted(x, rest);
      var r := Insert(x, s);
      var ir := Insert(x, rest);
      assert r == [s[0]] + ir;
      LeTotal(x, s[0]);
      forall j | 0 < j < |r|
        ensures Le(s[0], r[j])
      {
        var y := r[j];
        assert y in multiset(ir);
        assert y in multiset(rest) + multiset{x};
        if y != x {
          assert y in rest;
          var k :| 0 <= k < |rest| && rest[k] == y;
          assert s[k + 1] == y;
        }
      }
    } else if s != [] {
      forall j | 0 <= j < |s|
        ensures Le(x, s[j])
      {
        if j > 0 {
          LeTransitive(x, s[0], s[j]);
        }
      }
    }
  }

  /** Sorting orders the strings and keeps every one of them. */
  lemma {:induction false} SortSorted(s: seq<string>)
    ensures Sorted(Sort(s)) && multiset(Sort(s)) == multiset(s)
  {
    if s != [] {
      SortSorted(s[1..]);
      InsertSorted(s[0], Sort(s[1..]));
    }
  }

  // ---------------------------------------------------------------------
  // `_sortedArrayDiff`
  // ---------------------------------------------------------------------

  /**
   * The elements of `longer` the left-to-right match leaves over: an
   * element equal to `shorter[j]` consumes it (and the match moves on to
   * `shorter[j + 1]`); any other element is kept. Past the end of
   * `shorter` nothing matches (`undefined` equals no string).
   */
  function Unmatched(longer: seq<string>, shorter: seq<string>, j: nat): seq<string>
    decreases |longer|
  {
    if longer == [] then []
    else if j < |shorter| && longer[0] == shorter[j] then Unmatched(longer[1..], shorter, j + 1)
    else [longer[0]] + Unmatched(longer[1..], shorter, j)
  }

  /**
   * `_sortedArrayDiff`: throws when `longer` is the shorter list; otherwise
   * `dest` is emptied and refilled with the unmatched elements of `longer`
   * in order, so nothing from an earlier call survives in it.
   */
  method SortedArrayDiff(longer: seq<string>, shorter: seq<string>) returns (r: Result<seq<string>>)
    ensures |longer| < |shorter| <==> r.Err?
    ensures r.Err? ==> r.msg == "Failed assertion: longer.length >= shorter.length"
    ensures r.Ok? ==> r.value == Unmatched(longer, shorter, 0)
  {
    if |longer| < |shorter| {
      return Err("Failed assertion: longer.length >= shorter.length");
    }
    var diff := [];
    var i, j := 0, 0;
    while i < |longer|
      invariant 0 <= i <= |longer|
      invariant diff + Unmatched(longer[i..], shorter, j) == Unmatched(longer, shorter, 0)
    {
      assert longer[i..][1..] == longer[i + 1..];
      if j < |shorter| && longer[i] == shorter[j] {
        j := j + 1;
      } else {
        diff := diff + [longer[i]];
      }
      i := i + 1;
    }
    return Ok(diff);
  }

  /** The first element of a sorted list sorts no later than any element of it. */
  lemma SortedHead(s: seq<string>, x: string)
    requires Sorted(s) && s != [] && x in s
    ensures Le(s[0], x)
  {
    var k :| 0 <= k < |s| && s[k] == x;
    if k == 0 {
      LeTotal(x, x);
    }
  }

  lemma SubMultisetTail(x: string, xs: seq<string>, ys: seq<string>)
    requires multiset([x] + xs) <= multiset([x] + ys)
    ensures multiset(xs) <= multiset(ys)
  {
    forall z
      ensures multiset(xs)[z] <= multiset(ys)[z]
    {
      assert multiset([x] + xs)[z] <= multiset([x] + ys)[z];
    }
  }

  lemma SubMultisetDrop(x: string, xs: seq<string>, ys: seq<string>)
    requires multiset(xs) <= multiset([x] + ys) && x !in multiset(xs)
    ensures multiset(xs) <= multiset(ys)
    ensures multiset([x] + ys) - multiset(xs) == multiset{x} + (multiset(ys) - multiset(xs))
  {
    forall z
      ensures multiset(xs)[z] <= multiset(ys)[z]
    {
      assert multiset(xs)[z] <= multiset([x] + ys)[z];
    }
  }

  /**
   * In the sorted case, a head of `longer` that `shorter[j]` does not
   * consume is nowhere in `shorter[j..]`.
   */
  lemma HeadNotPending(longer: seq<string>, shorter: seq<string>, j: nat)
    requires j <= |shorter| && Sorted(longer) && Sorted(shorter) && longer != []
    requires multiset(shorter[j..]) <= multiset(longer)
    requires j == |shorter| || longer[0] != shorter[j]
    ensures longer[0] !in multiset(shorter[j..])
  {
    if longer[0] in multiset(shorter[j..]) {
      var k :| j <= k < |shorter| && shorter[k] == longer[0];
      assert shorter[j..][0] == shorter[j];
      assert shorter[j] in multiset(longer);
      SortedHead(longer, shorter[j]);
      LeAntisymmetric(shorter[j], longer[0]);
    }
  }

  /**
   * When `shorter[j..]` is a sorted sub-multiset of the sorted `longer`,
   * the match leaves over exactly `longer` minus `shorter[j..]`.
   */
  lemma {:induction false} UnmatchedIsDifference(longer: seq<string>, shorter: seq<string>, j: nat)
    requires j <= |shorter| && Sorted(longer) && Sorted(shorter)
    requires multiset(shorter[j..]) <= multiset(longer)
    ensures multiset(Unmatched(longer, shorter, j)) == multiset(longer) - multiset(shorter[j..])
    decreases |longer|
  {
    if longer == [] {
      assert |multiset(shorter[j..])| == 0;
    } else {
      var rest := longer[1..];
      assert longer == [longer[0]] + rest;
      assert Sorted(rest) by {
        assert forall i :: 0 <= i < |rest| ==> rest[i] == longer[i + 1];
      }
      if j < |shorter| && longer[0] == shorter[j] {
        assert shorter[j..] == [shorter[j]] + shorter[j + 1..];
        SubMultisetTail(longer[0], shorter[j + 1..], rest);
        UnmatchedIsDifference(rest, shorter, j + 1);
      } else {
        HeadNotPending(longer, shorter, j);
        SubMultisetDrop(longer[0], shorter[j..], rest);
        UnmatchedIsDifference(rest, shorter, j);
      }
    }
  }

  /**
   * The diff `subscribe` and `unsubscribe` compute: when the old names are
   * a sub-multiset of the new ones, sorting both and diffing gives exactly
   * the names that were added.
   */
  lemma SortedDiffIsAdded(after: seq<string>, before: seq<string>)
    requires multiset(before) <= multiset(after)
    ensures multiset(Unmatched(Sort(after), Sort(before), 0)) == multiset(after) - multiset(before)
  {
    SortSorted(after);
    SortSorted(before);
    assert Sort(before)[0..] == Sort(before);
    UnmatchedIsDifference(Sort(after), Sort(before), 0);
  }
}
