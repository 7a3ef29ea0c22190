/** Sequence helpers shared by the table and store layers: searches in store
    order, the concatenation of chunks, and a fail-fast map over rows. */
module Seqs {
  import opened Values
  import opened Errors

  /** The smallest index below `n` satisfying `p` (`.first()` of a match). */
  function First(n: nat, p: nat -> bool): (r: Option<nat>)
    ensures r.Some? ==> r.value < n && p(r.value) && forall j :: 0 <= j < r.value ==> !p(j)
    ensures r.None? ==> forall j :: 0 <= j < n ==> !p(j)
  {
    if n == 0 then None
    else
      match First(n - 1, p)
      case Some(i) => Some(i)
      case None => if p(n - 1) then Some(n - 1) else None
  }

  predicate StrictlyIncreasing(s: seq<nat>) {
    forall i, j :: 0 <= i < j < |s| ==> s[i] < s[j]
  }

  /** The indices below `n` satisfying `p`, in increasing order. */
  function IndicesWhere(n: nat, p: nat -> bool): (r: seq<nat>)
    ensures forall i: nat :: i in r <==> i < n && p(i)
    ensures forall k :: 0 <= k < |r| ==> r[k] < n
    ensures StrictlyIncreasing(r)
  {
    if n == 0 then []
    else
      var prefix := IndicesWhere(n - 1, p);
      forall k | 0 <= k < |prefix| ensures prefix[k] < n - 1 {
        assert prefix[k] in prefix;
      }
      if p(n - 1) then prefix + [n - 1] else prefix
  }

  function Flatten<T>(ss: seq<seq<T>>): seq<T> {
    if ss == [] then [] else ss[0] + Flatten(ss[1..])
  }

  /** `IndicesWhere` depends only on the predicate's values below `n`. */
  lemma {:induction false} IndicesWhereAgree(n: nat, p: nat -> bool, q: nat -> bool)
    requires forall i: nat :: i < n ==> p(i) == q(i)
    ensures IndicesWhere(n, p) == IndicesWhere(n, q)
  {
    if n > 0 {
      IndicesWhereAgree(n - 1, p, q);
    }
  }

  lemma {:induction false} FlattenAppend<T>(ss: seq<seq<T>>, ts: seq<seq<T>>)
    ensures Flatten(ss + ts) == Flatten(ss) + Flatten(ts)
  {
    if ss == [] {
      assert ss + ts == ts;
    } else {
      assert (ss + ts)[1..] == ss[1..] + ts;
      FlattenAppend(ss[1..], ts);
    }
  }

  /** What holds of every element of every part holds of every element of
      the concatenation. */
  lemma {:induction false} FlattenAll<T>(ss: seq<seq<T>>, p: T -> bool)
    requires forall i, j :: 0 <= i < |ss| && 0 <= j < |ss[i]| ==> p(ss[i][j])
    ensures forall k :: 0 <= k < |Flatten(ss)| ==> p(Flatten(ss)[k])
  {
    if ss != [] {
      FlattenAll(ss[1..], p);
      forall k | 0 <= k < |Flatten(ss)| ensures p(Flatten(ss)[k]) {
        if k >= |ss[0]| {
          assert Flatten(ss)[k] == Flatten(ss[1..])[k - |ss[0]|];
          assert forall i, j :: 0 <= i < |ss[1..]| && 0 <= j < |ss[1..][i]| ==> p(ss[1..][i][j]) by {
            forall i, j | 0 <= i < |ss[1..]| && 0 <= j < |ss[1..][i]| ensures p(ss[1..][i][j]) {
              assert ss[1..][i] == ss[i + 1];
            }
          }
        }
      }
    }
  }

  /** Applies `f` to every element in order, stopping at the first error, as
      `DataFrame.apply` does when the applied function raises. */
  function MapAll<A, B>(xs: seq<A>, f: A -> Result<B>): (r: Result<seq<B>>)
    ensures r.Ok? <==> forall i :: 0 <= i < |xs| ==> f(xs[i]).Ok?
    ensures r.Ok? ==> |r.value| == |xs| && forall i :: 0 <= i < |xs| ==> f(xs[i]) == Ok(r.value[i])
    ensures r.Err? ==> exists i :: 0 <= i < |xs| && f(xs[i]) == Err(r.error) && forall j :: 0 <= j < i ==> f(xs[j]).Ok?
  {
    if xs == [] then Ok([])
    else
      match f(xs[0])
      case Err(e) => Err(e)
      case Ok(y) =>
        match MapAll(xs[1..], f)
        case Err(e) =>
          var r: Result<seq<B>> := Err(e);
          ghost var k :| 0 <= k < |xs[1..]| && f(xs[1..][k]) == Err(e) && forall j :: 0 <= j < k ==> f(xs[1..][j]).Ok?;
          assert f(xs[k + 1]) == Err(e) && forall j :: 0 <= j < k + 1 ==> f(xs[j]).Ok? by {
            forall j | 0 <= j < k + 1 ensures f(xs[j]).Ok? {
              if j > 0 { assert xs[j] == xs[1..][j - 1]; }
            }
          }
          r
        case Ok(ys) => Ok([y] + ys)
  }

  /** Mapping two sequences element by element to the same results gives
      the same overall result, the same first error included. */
  lemma {:induction false} MapAllPointwise<A, C, B>(xs: seq<A>, f: A -> Result<B>, ys: seq<C>, g: C -> Result<B>)
    requires |xs| == |ys|
    requires forall i :: 0 <= i < |xs| ==> f(xs[i]) == g(ys[i])
    ensures MapAll(xs, f) == MapAll(ys, g)
  {
    if xs != [] {
      assert forall i :: 0 <= i < |xs[1..]| ==> xs[1..][i] == xs[i + 1] && ys[1..][i] == ys[i + 1];
      MapAllPointwise(xs[1..], f, ys[1..], g);
      assert f(xs[0]) == g(ys[0]);
    }
  }

  /** Mapping a concatenation is mapping its parts: the first error of the
      whole is the first error of the first part that has one. */
  lemma {:induction false} MapAllAppend<A, B>(xs: seq<A>, ys: seq<A>, f: A -> Result<B>)
    ensures MapAll(xs + ys, f) ==
      match MapAll(xs, f)
      case Err(e) => Err(e)
      case Ok(front) =>
        match MapAll(ys, f)
        case Err(e) => Err(e)
        case Ok(back) => Ok(front + back)
  {
    if xs == [] {
      assert xs + ys == ys;
      assert MapAll(xs, f) == Ok([]);
      match MapAll(ys, f)
      case Err(e) =>
      case Ok(back) => assert [] + back == back;
    } else {
      assert (xs + ys)[0] == xs[0];
      assert (xs + ys)[1..] == xs[1..] + ys;
      MapAllAppend(xs[1..], ys, f);
      match f(xs[0])
      case Err(e) =>
      case Ok(y) =>
        match MapAll(xs[1..], f)
        case Err(e) =>
        case Ok(rest) =>
          match MapAll(ys, f)
          case Err(e) =>
          case Ok(back) =>
            assert [y] + (rest + back) == ([y] + rest) + back;
    }
  }
}
