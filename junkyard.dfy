/**
 * The gizmo catalog ("junkyard"): a dictionary from a gizmo model name to
 * the data shared by every gizmo of that model, filled from the top-level
 * JSON document whose keys are checked first. The first registration of a
 * name wins.
 */
module Junkyards {
  import opened Util

  /**
   * The catalog fields the vehicle code reads: `type`, `graphics`, and per
   * type `force` (thrusters) or `maxHp`, `baseForce`, `baseTorque` (cores).
   * `reg` and `thrustOffset` only feed geometry that is not modelled.
   */
  datatype GizmoData = GizmoData(
    kind: string,
    graphics: Option<string>,
    force: Option<real>,
    maxHp: Option<int>,
    baseForce: Option<real>,
    baseTorque: Option<real>)

  /** The top-level keys a junkyard JSON document must have, in this order. */
  const RequiredKeys: seq<string> := ["manifest", "assets", "gizmos"]

  /** The elements of `req`, in order, that do not occur in `seen`. */
  function Remaining(req: seq<string>, seen: seq<string>): seq<string>
  {
    if req == [] then []
    else if req[0] in seen then Remaining(req[1..], seen)
    else [req[0]] + Remaining(req[1..], seen)
  }

  /** The elements of `keys`, in order, that are not required keys. */
  function Extras(keys: seq<string>): seq<string>
  {
    if keys == [] then []
    else
      var last := keys[|keys| - 1];
      Extras(keys[..|keys| - 1]) + (if last in RequiredKeys then [] else [last])
  }

  /** A key is left over exactly when it is required and was not seen. */
  lemma {:induction false} RemainingMembers(req: seq<string>, seen: seq<string>, k: string)
    ensures k in Remaining(req, seen) <==> k in req && k !in seen
  {
    if req != [] {
      RemainingMembers(req[1..], seen, k);
      assert req == [req[0]] + req[1..];
    }
  }

  /** A key is extra exactly when it is present and not required. */
  lemma {:induction false} ExtrasMembers(keys: seq<string>, k: string)
    ensures k in Extras(keys) <==> k in keys && k !in RequiredKeys
  {
    if keys != [] {
      ExtrasMembers(keys[..|keys| - 1], k);
      assert keys == keys[..|keys| - 1] + [keys[|keys| - 1]];
    }
  }

  /** `Array.prototype.join` with the given separator. */
  function Join(parts: seq<string>, sep: string): string
  {
    if parts == [] then ""
    else if |parts| == 1 then parts[0]
    else parts[0] + sep + Join(parts[1..], sep)
  }

  /** `Array.prototype.indexOf`: the first index holding `k`, or -1. */
  function IndexOf(s: seq<string>, k: string): (i: int)
    ensures -1 <= i < |s|
    ensures i == -1 <==> k !in s
    ensures i >= 0 ==> s[i] == k
  {
    if s == [] then -1
    else if s[0] == k then 0
    else
      var j := IndexOf(s[1..], k);
      if j == -1 then -1 else j + 1
  }

  /** What `checkJSONData` decides: missing keys first, then extra keys. */
  function CheckResult(keys: seq<string>): Outcome
  {
    var missing := Remaining(RequiredKeys, keys);
    var extra := Extras(keys);
    if |missing| > 0 then Fail("Missing keys from junkyard JSON: " + Join(missing, ", "))
    else if |extra| > 0 then Fail("Unexpected keys in junkyardJSON: " + Join(extra, ", "))
    else Pass
  }

  /**
   * Splicing `k` out of what is left of a list of distinct keys is the same
   * as having seen `k` too.
   */
  lemma {:induction false} RemainingStep(req: seq<string>, seen: seq<string>, k: string)
    requires forall i, j :: 0 <= i < j < |req| ==> req[i] != req[j]
    requires k in Remaining(req, seen)
    ensures var r := Remaining(req, seen); var i := IndexOf(r, k);
      Remaining(req, seen + [k]) == r[..i] + r[i + 1..]
  {
    var r := Remaining(req, seen);
    var r1 := Remaining(req[1..], seen);
    assert forall i, j :: 0 <= i < j < |req[1..]| ==> req[1..][i] != req[1..][j] by {
      forall i, j | 0 <= i < j < |req[1..]| ensures req[1..][i] != req[1..][j] {
        assert req[1..][i] == req[i + 1] && req[1..][j] == req[j + 1];
      }
    }
    if req[0] in seen {
      assert r == r1;
      RemainingStep(req[1..], seen, k);
    } else if req[0] == k {
      assert req[0] !in req[1..] by {
        forall j | 0 <= j < |req[1..]| ensures req[1..][j] != req[0] {
          assert req[1..][j] == req[j + 1];
        }
      }
      RemainingNotIn(req[1..], seen, k);
    } else {
      assert r == [req[0]] + r1;
      RemainingStep(req[1..], seen, k);
      IndexOfCons(req[0], r1, k);
      SpliceCons(req[0], r1, IndexOf(r1, k));
    }
  }

  /** `indexOf` on `[x] + s` for a `k` other than `x` is one past its index in `s`. */
  lemma IndexOfCons(x: string, s: seq<string>, k: string)
    requires x != k
    ensures IndexOf([x] + s, k) == if k in s then IndexOf(s, k) + 1 else -1
  {
    assert ([x] + s)[1..] == s;
  }

  /** Removing element `i + 1` of `[x] + s` keeps `x` in front of `s` without element `i`. */
  lemma SpliceCons<T>(x: T, s: seq<T>, i: nat)
    requires i < |s|
    ensures ([x] + s)[..i + 1] + ([x] + s)[i + 2..] == [x] + (s[..i] + s[i + 1..])
  {
    var r := [x] + s;
    assert r[..i + 1] == [x] + s[..i];
    assert r[i + 2..] == s[i + 1..];
  }

  /** Seeing a key that is not in `req` changes nothing. */
  lemma {:induction false} RemainingNotIn(req: seq<string>, seen: seq<string>, k: string)
    requires k !in req
    ensures Remaining(req, seen + [k]) == Remaining(req, seen)
  {
    if req != [] {
      RemainingNotIn(req[1..], seen, k);
    }
  }

  /** Seeing a key that is no longer left changes nothing either. */
  lemma {:induction false} RemainingSeen(req: seq<string>, seen: seq<string>, k: string)
    requires k !in Remaining(req, seen)
    ensures Remaining(req, seen + [k]) == Remaining(req, seen)
  {
    if req != [] {
      RemainingSeen(req[1..], seen, k);
    }
  }

  /**
   * The check passes exactly when the top-level keys are the three
   * required ones and nothing else.
   */
  lemma CheckPassIff(keys: seq<string>)
    ensures CheckResult(keys) == Pass <==> forall k :: k in keys <==> k in RequiredKeys
  {
    var missing := Remaining(RequiredKeys, keys);
    var extra := Extras(keys);
    forall k ensures k in missing <==> k in RequiredKeys && k !in keys {
      RemainingMembers(RequiredKeys, keys, k);
    }
    forall k ensures k in extra <==> k in keys && k !in RequiredKeys {
      ExtrasMembers(keys, k);
    }
    if forall k :: k in keys <==> k in RequiredKeys {
      NoMembers(missing);
      NoMembers(extra);
    }
  }

  /** A sequence is empty exactly when it has no members. */
  lemma NoMembers<T>(s: seq<T>)
    ensures s == [] <==> forall x :: x !in s
  {
    if s != [] {
      assert s[0] in s;
    }
  }

  /**
   * One step of the key scan: the next key is either spliced out of what is
   * left of the required keys, or (when it is not there) it is an extra key.
   */
  lemma CheckStep(keys: seq<string>, n: nat)
    requires forall i, j :: 0 <= i < j < |keys| ==> keys[i] != keys[j]
    requires n < |keys|
    ensures var req := Remaining(RequiredKeys, keys[..n]); var i := IndexOf(req, keys[n]);
      Remaining(RequiredKeys, keys[..n + 1]) == (if i == -1 then req else req[..i] + req[i + 1..])
      && Extras(keys[..n + 1]) == Extras(keys[..n]) + (if i == -1 then [keys[n]] else [])
  {
    var key := keys[n];
    assert keys[..n + 1] == keys[..n] + [key];
    assert keys[..n + 1][..n] == keys[..n];
    RemainingMembers(RequiredKeys, keys[..n], key);
    if key in Remaining(RequiredKeys, keys[..n]) {
      RemainingStep(RequiredKeys, keys[..n], key);
    } else {
      RemainingSeen(RequiredKeys, keys[..n], key);
      assert key !in keys[..n];
    }
  }

  class Junkyard {
    var lookup: map<string, GizmoData>

    /** `new Junkyard()` clears the catalog. */
    constructor ()
      ensures lookup == map[]
    {
      lookup := map[];
    }

    /** `clear`: drop every entry. */
    method Clear()
      modifies this
      ensures lookup == map[]
    {
      lookup := map[];
    }

    /** `lookup`: the stored entry, or undefined. */
    function Lookup(id: string): (r: Option<GizmoData>)
      reads this
      ensures r.Some? <==> id in lookup
      ensures r.Some? ==> r.value == lookup[id]
    {
      if id in lookup then Some(lookup[id]) else None
    }

    /**
     * `checkJSONData`: splice each top-level key out of a copy of the
     * required keys, collecting those that are not required; complain about
     * missing keys first, then about extra ones.
     */
    method CheckJSONData(keys: seq<string>) returns (out: Outcome)
      requires forall i, j :: 0 <= i < j < |keys| ==> keys[i] != keys[j]
      ensures out == CheckResult(keys)
    {
      var required := RequiredKeys;
      var extra: seq<string> := [];
      var n := 0;
      while n < |keys|
        invariant 0 <= n <= |keys|
        invariant required == Remaining(RequiredKeys, keys[..n])
        invariant extra == Extras(keys[..n])
      {
        var key := keys[n];
        var index := IndexOf(required, key);
        CheckStep(keys, n);
        if index != -1 {
          required := required[..index] + required[index + 1..];
        } else {
          extra := extra + [key];
        }
        n := n + 1;
      }
      assert keys[..n] == keys;
      if |required| > 0 {
        return Fail("Missing keys from junkyard JSON: " + Join(required, ", "));
      }
      if |extra| > 0 {
        return Fail("Unexpected keys in junkyardJSON: " + Join(extra, ", "));
      }
      return Pass;
    }

    /** `_addGizmo`: store the entry only when the name is not taken yet. */
    method AddGizmo(id: string, data: GizmoData)
      modifies this
      ensures lookup == Added(old(lookup), id, data)
    {
      if id !in lookup {
        lookup := lookup[id := data];
      }
    }

    /** `loadJSONData`: add every gizmo entry, in key order. */
    method LoadJSONData(gizmos: seq<(string, GizmoData)>)
      modifies this
      ensures lookup == Loaded(old(lookup), gizmos)
    {
      var n := 0;
      while n < |gizmos|
        invariant 0 <= n <= |gizmos|
        invariant Loaded(lookup, gizmos[n..]) == Loaded(old(lookup), gizmos)
      {
        AddGizmo(gizmos[n].0, gizmos[n].1);
        assert gizmos[n..][1..] == gizmos[n + 1..];
        n := n + 1;
      }
    }
  }

  /** The catalog after one `_addGizmo`. */
  function Added(m: map<string, GizmoData>, id: string, data: GizmoData): (r: map<string, GizmoData>)
    ensures id in r && r.Keys == m.Keys + {id}
    ensures forall k :: k in m ==> r[k] == m[k]
  {
    if id in m then m else m[id := data]
  }

  /** The catalog after adding a list of entries in order. */
  function Loaded(m: map<string, GizmoData>, entries: seq<(string, GizmoData)>): map<string, GizmoData>
    decreases |entries|
  {
    if entries == [] then m else Loaded(Added(m, entries[0].0, entries[0].1), entries[1..])
  }

  /** The data of the first entry named `id`. */
  function FirstData(entries: seq<(string, GizmoData)>, id: string): GizmoData
    requires exists i :: 0 <= i < |entries| && entries[i].0 == id
  {
    if entries[0].0 == id then entries[0].1 else FirstData(entries[1..], id)
  }

  /**
   * Loading never overwrites: a name already in the catalog keeps its
   * entry, a new name gets the data of its first occurrence, and the names
   * are exactly the old ones plus the loaded ones.
   */
  lemma {:induction false} LoadFirstWins(m: map<string, GizmoData>, entries: seq<(string, GizmoData)>)
    decreases |entries|
    ensures forall k :: k in Loaded(m, entries) <==> k in m || exists i :: 0 <= i < |entries| && entries[i].0 == k
    ensures forall k :: k in m ==> Loaded(m, entries)[k] == m[k]
    ensures forall k :: k !in m && (exists i :: 0 <= i < |entries| && entries[i].0 == k) ==>
      Loaded(m, entries)[k] == FirstData(entries, k)
  {
    if entries != [] {
      var m' := Added(m, entries[0].0, entries[0].1);
      LoadFirstWins(m', entries[1..]);
      forall k ensures k in Loaded(m, entries) <==> k in m || exists i :: 0 <= i < |entries| && entries[i].0 == k {
        if exists i :: 0 <= i < |entries[1..]| && entries[1..][i].0 == k {
          var i :| 0 <= i < |entries[1..]| && entries[1..][i].0 == k;
          assert entries[i + 1].0 == k;
        }
        if exists i :: 0 <= i < |entries| && entries[i].0 == k {
          var i :| 0 <= i < |entries| && entries[i].0 == k;
          if i > 0 { assert entries[1..][i - 1].0 == k; }
        }
      }
      forall k | k !in m && (exists i :: 0 <= i < |entries| && entries[i].0 == k)
        ensures Loaded(m, entries)[k] == FirstData(entries, k)
      {
        if entries[0].0 != k {
          var i :| 0 <= i < |entries| && entries[i].0 == k;
          assert entries[1..][i - 1].0 == k;
        }
      }
    }
  }
}
