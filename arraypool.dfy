/**
 * The reference-counted free list of arrays: `allocate` hands out a
 * recycled array (the most recently freed one) or a new one, `retain` and
 * `release` move a per-array count, and a release that brings the count to
 * zero or below empties the array and pushes it back on the free list.
 *
 * Arrays are objects with identity here, because the interesting behaviour
 * is about identity: there is no guard against a second release, so one
 * array can sit on the free list twice and be handed out to two users.
 */
module ArrayPools {
  import opened Util

  /** A JavaScript array, with the two expando fields the pool writes. */
  class PoolArray<T> {
    var contents: seq<T>
    var pooled: bool
    var retainCount: int

    /** An array built with `[]`: empty, never seen by the pool. */
    constructor ()
      ensures contents == [] && !pooled && retainCount == 0
    {
      contents := [];
      pooled := false;
      retainCount := 0;
    }

    /** `Array.prototype.retain`: one more known user. */
    method Retain() returns (out: Outcome)
      modifies this
      ensures !old(pooled) ==> out == Fail("Calling retain from non-pooled Array") && unchanged(this)
      ensures old(pooled) ==> out == Pass && retainCount == old(retainCount) + 1
      ensures contents == old(contents) && pooled == old(pooled)
    {
      if !pooled {
        return Fail("Calling retain from non-pooled Array");
      }
      retainCount := retainCount + 1;
      return Pass;
    }
  }

  /** The module-level `free` list (the pool is a singleton). */
  class ArrayPool<T> {
    var free: seq<PoolArray<T>>

    constructor ()
      ensures free == []
    {
      free := [];
    }

    /** `size`: the number of entries on the free list. */
    function Size(): (n: nat)
      reads this
      ensures n == |free|
    {
      |free|
    }

    /**
     * `allocate`: pop the most recently freed array, or make a new one, and
     * mark it pooled with a count of one.
     */
    method Allocate() returns (a: PoolArray<T>)
      modifies this, if |free| > 0 then {free[|free| - 1]} else {}
      ensures old(|free|) > 0 ==> a == old(free[|free| - 1]) && free == old(free[..|free| - 1])
      ensures old(|free|) > 0 ==> a.contents == old(a.contents)
      ensures old(|free|) == 0 ==> fresh(a) && free == [] && a.contents == []
      ensures a.pooled && a.retainCount == 1
    {
      if |free| > 0 {
        a := free[|free| - 1];
        free := free[..|free| - 1];
      } else {
        a := new PoolArray();
      }
      a.pooled := true;
      a.retainCount := 1;
    }

    /**
     * `Array.prototype.release`: one fewer user; at a count of zero or below
     * the array is emptied and pushed on the free list, whether or not it is
     * already there.
     */
    method Release(a: PoolArray<T>) returns (out: Outcome)
      modifies this, a
      ensures !old(a.pooled) ==> out == Fail("Calling release from non-pooled Array")
      ensures !old(a.pooled) ==> unchanged(this, a)
      ensures old(a.pooled) ==> out == Pass && a.pooled && a.retainCount == old(a.retainCount) - 1
      ensures old(a.pooled) && a.retainCount <= 0 ==> a.contents == [] && free == old(free) + [a]
      ensures old(a.pooled) && a.retainCount > 0 ==> a.contents == old(a.contents) && free == old(free)
    {
      if !a.pooled {
        return Fail("Calling release from non-pooled Array");
      }
      a.retainCount := a.retainCount - 1;
      if a.retainCount <= 0 {
        a.contents := [];
        free := free + [a];
      }
      return Pass;
    }
  }

  /**
   * There is no double-release guard: releasing a freshly allocated array
   * twice leaves it on the free list twice, and the next two allocations
   * both return that same array.
   */
  method DoubleRelease<T>(pool: ArrayPool<T>) returns (first: PoolArray<T>, second: PoolArray<T>, third: PoolArray<T>)
    requires pool.free == []
    modifies pool
    ensures first == second == third
    ensures pool.free == []
    ensures second.pooled && second.retainCount == 1
  {
    first := pool.Allocate();
    var r1 := pool.Release(first);
    var r2 := pool.Release(first);
    assert pool.Size() == 2;
    second := pool.Allocate();
    third := pool.Allocate();
  }
}
