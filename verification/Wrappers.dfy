/** Option and Result, and the few sequence functions every component shares. */
module Wrappers {

  datatype Option<+T> = None | Some(value: T)

  /** The services throw; a failed call is an `Err` with the status the thrown exception carries. */
  datatype Error = BadRequest | NotFound | Conflict | Unavailable

  datatype Result<+T> = Ok(value: T) | Err(error: Error)

  function Max(a: int, b: int): int {
    if a >= b then a else b
  }

  function Min(a: int, b: int): int {
    if a <= b then a else b
  }

  /** The elements that satisfy p, in order. */
  function Select<T(!new)>(s: seq<T>, p: T -> bool): (r: seq<T>)
    ensures |r| <= |s|
    ensures forall x :: x in r <==> x in s && p(x)
  {
    if s == [] then [] else
      (if p(s[0]) then [s[0]] else []) + Select(s[1..], p)
  }

  lemma {:induction false} SelectAppend<T(!new)>(a: seq<T>, b: seq<T>, p: T -> bool)
    ensures Select(a + b, p) == Select(a, p) + Select(b, p)
  {
    if a == [] {
      assert a + b == b;
    } else {
      assert (a + b)[1..] == a[1..] + b;
      SelectAppend(a[1..], b, p);
    }
  }

  lemma {:induction false} SelectAll<T(!new)>(s: seq<T>, p: T -> bool)
    requires forall x :: x in s ==> p(x)
    ensures Select(s, p) == s
  {
    if s != [] {
      SelectAll(s[1..], p);
      assert s == [s[0]] + s[1..];
    }
  }

  lemma {:induction false} SelectNone<T(!new)>(s: seq<T>, p: T -> bool)
    requires forall x :: x in s ==> !p(x)
    ensures Select(s, p) == []
  {
    if s != [] {
      SelectNone(s[1..], p);
    }
  }

  ghost predicate Pairwise<T(!new)>(s: seq<T>, rel: (T, T) -> bool) {
    forall i, j :: 0 <= i < j < |s| ==> rel(s[i], s[j])
  }

  lemma PairwiseCons<T(!new)>(x: T, rest: seq<T>, rel: (T, T) -> bool)
    requires Pairwise(rest, rel) && forall y :: y in rest ==> rel(x, y)
    ensures Pairwise([x] + rest, rel)
  {
    var r := [x] + rest;
    forall i, j | 0 <= i < j < |r| ensures rel(r[i], r[j]) {
      assert r[j] == rest[j - 1] && rest[j - 1] in rest;
      if i > 0 {
        assert r[i] == rest[i - 1] && rel(rest[i - 1], rest[j - 1]);
      }
    }
  }

  lemma PairwiseTail<T(!new)>(s: seq<T>, rel: (T, T) -> bool)
    requires s != [] && Pairwise(s, rel)
    ensures Pairwise(s[1..], rel) && forall y :: y in s[1..] ==> rel(s[0], y)
  {
    forall i, j | 0 <= i < j < |s[1..]| ensures rel(s[1..][i], s[1..][j]) {
      assert rel(s[i + 1], s[j + 1]);
    }
    forall y | y in s[1..] ensures rel(s[0], y) {
      var j :| 0 <= j < |s[1..]| && s[1..][j] == y;
      assert rel(s[0], s[j + 1]);
    }
  }

  lemma {:induction false} SelectKeepsPairwise<T(!new)>(s: seq<T>, p: T -> bool, rel: (T, T) -> bool)
    requires Pairwise(s, rel)
    ensures Pairwise(Select(s, p), rel)
  {
    if s != [] {
      PairwiseTail(s, rel);
      SelectKeepsPairwise(s[1..], p, rel);
      if p(s[0]) {
        PairwiseCons(s[0], Select(s[1..], p), rel);
      } else {
        assert Select(s, p) == Select(s[1..], p);
      }
    }
  }

  /** A relation between every element and every later one survives a selection. */
  lemma SelectKeepsPairs<T(!new)>(s: seq<T>, p: T -> bool, rel: (T, T) -> bool)
    requires forall i, j :: 0 <= i < j < |s| ==> rel(s[i], s[j])
    ensures forall i, j :: 0 <= i < j < |Select(s, p)| ==> rel(Select(s, p)[i], Select(s, p)[j])
  {
    SelectKeepsPairwise(s, p, rel);
  }
}
