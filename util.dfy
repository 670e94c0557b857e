/**
 * Small shared vocabulary: optional values, results standing for a thrown
 * JavaScript error, and the integer helpers (Math.min, Math.max, Math.ceil)
 * the game code relies on.
 */
module Util {

  /** A JavaScript value that may be `undefined`/`null`. */
  datatype Option<T> = None | Some(value: T)
  {
    predicate IsSome() { Some? }

    function GetOr(default: T): T
    {
      match this
      case None => default
      case Some(v) => v
    }
  }

  /** The outcome of a call that may throw: `Err` carries the thrown message. */
  datatype Result<T> = Ok(value: T) | Err(msg: string)
  {
    predicate IsFailure() { Err? }
  }

  /** A call with no return value that may throw. */
  datatype Outcome = Pass | Fail(msg: string)

  function Min(a: int, b: int): int { if a <= b then a else b }

  function Max(a: int, b: int): int { if a <= b then b else a }

  function MinR(a: real, b: real): real { if a <= b then a else b }

  function MaxR(a: real, b: real): real { if a <= b then b else a }

  /** Math.ceil on a finite number: the least integer not below `x`. */
  function Ceil(x: real): (r: int)
    ensures x <= r as real < x + 1.0
  {
    -((-x).Floor)
  }

  /** Math.floor on a finite number: the greatest integer not above `x`. */
  function Floor(x: real): (r: int)
    ensures r as real <= x < r as real + 1.0
  {
    x.Floor
  }

  /**
   * Hit points: an integer, or +Infinity (what a Core gives the atoms it owns).
   * A JavaScript number is truthy unless it is 0.
   */
  datatype Hp = Finite(n: int) | Infinite
  {
    predicate Truthy() { this != Finite(0) }
    predicate Positive() { Infinite? || n > 0 }

    /** `hp -= d`: Infinity minus a finite amount stays Infinity. */
    function Minus(d: int): (r: Hp)
      ensures Infinite? <==> r.Infinite?
      ensures Finite? ==> r.n == n - d
    {
      match this
      case Finite(k) => Finite(k - d)
      case Infinite => Infinite
    }

    /** `hp < m` for a finite `m`: never true of Infinity. */
    predicate Below(m: int) { Finite? && n < m }
  }

  /** No element occurs twice. */
  predicate Distinct<T(==)>(s: seq<T>)
  {
    forall i, j :: 0 <= i < j < |s| ==> s[i] != s[j]
  }

  /** Math.abs on a finite number. */
  /** Appending is associative; stated once so that callers with a large context need not rediscover it. */
  lemma AppendAssoc<T>(a: seq<T>, b: seq<T>, c: seq<T>)
    ensures (a + b) + c == a + (b + c)
  {
  }

  function AbsR(x: real): real { if x < 0.0 then -x else x }

  /** `String.prototype.split` on one separator character. */
  function SplitOn(s: string, sep: char): (pieces: seq<string>)
    ensures |pieces| >= 1
    ensures forall i :: 0 <= i < |pieces| ==> sep !in pieces[i]
  {
    if sep !in s then [s]
    else
      var i := FirstIndex(s, sep);
      [s[..i]] + SplitOn(s[i + 1..], sep)
  }

  /** The first index of `ch` in `s`. */
  function FirstIndex(s: string, ch: char): (i: nat)
    requires ch in s
    ensures i < |s| && s[i] == ch && ch !in s[..i]
  {
    if s[0] == ch then 0 else FirstIndex(s[1..], ch) + 1
  }

  /** `Array.prototype.join` with a one-character separator. */
  function JoinWith(pieces: seq<string>, sep: char): string
  {
    if pieces == [] then ""
    else if |pieces| == 1 then pieces[0]
    else pieces[0] + [sep] + JoinWith(pieces[1..], sep)
  }

  /** Splitting and joining on the same character gives the string back. */
  lemma {:induction false} SplitJoin(s: string, sep: char)
    ensures JoinWith(SplitOn(s, sep), sep) == s
    decreases |s|
  {
    if sep in s {
      var i := FirstIndex(s, sep);
      var rest := SplitOn(s[i + 1..], sep);
      SplitJoin(s[i + 1..], sep);
      assert SplitOn(s, sep) == [s[..i]] + rest;
      assert s == s[..i] + [sep] + s[i + 1..];
    }
  }

  /** Joining pieces free of the separator and splitting again gives the pieces back. */
  lemma {:induction false} JoinSplit(pieces: seq<string>, sep: char)
    requires pieces != [] && forall i :: 0 <= i < |pieces| ==> sep !in pieces[i]
    ensures SplitOn(JoinWith(pieces, sep), sep) == pieces
    decreases |pieces|
  {
    if |pieces| > 1 {
      var s, p0, rest := JoinWith(pieces, sep), pieces[0], JoinWith(pieces[1..], sep);
      assert s == p0 + [sep] + rest;
      assert s[|p0|] == sep;
      var i := FirstIndex(s, sep);
      assert s[..|p0|] == p0;
      assert forall k :: 0 <= k < |p0| ==> s[k] == p0[k];
      assert forall k :: 0 <= k < i ==> s[..i][k] == s[k];
      assert i == |p0|;
      assert s[i + 1..] == rest;
      JoinSplit(pieces[1..], sep);
    }
  }
}
