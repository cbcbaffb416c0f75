/** The reductions the array helpers are built from: `reduce` over a
    fallible binary method, `min` and `max` over numeric payloads, and the
    element-wise method call that `consolidate` performs.
 */
module Folds {
  import opened Outcomes

  /** One step of a reduction: an earlier failure propagates, otherwise
      the method is applied to the running value and the next element. */
  function Then<T>(acc: Result<T>, x: T, f: (T, T) -> Result<T>): Result<T>
  {
    if acc.Err? then acc else f(acc.value, x)
  }

  /** `reduce(f, xs, acc)`: combine from the left, stopping at the first failure. */
  function Fold<T>(acc: T, xs: seq<T>, f: (T, T) -> Result<T>): Result<T>
    decreases |xs|
  {
    if |xs| == 0 then Ok(acc)
    else
      var a :- f(acc, xs[0]);
      Fold(a, xs[1..], f)
  }

  /** `reduce(f, xs)` without an initial value: the first element seeds the
      fold, and an empty list raises `TypeError`. */
  function Reduce<T>(xs: seq<T>, f: (T, T) -> Result<T>): (r: Result<T>)
    ensures |xs| == 0 ==> r == Err(TypeError)
    ensures |xs| == 1 ==> r == Ok(xs[0])
  {
    if |xs| == 0 then Err(TypeError) else Fold(xs[0], xs[1..], f)
  }

  /** An independent reading of the same reduction: the last element is
      combined with the reduction of everything before it. */
  function ReduceFromEnd<T>(xs: seq<T>, f: (T, T) -> Result<T>): Result<T>
    decreases |xs|
  {
    if |xs| == 0 then Err(TypeError)
    else if |xs| == 1 then Ok(xs[0])
    else Then(ReduceFromEnd(xs[..|xs|-1], f), xs[|xs|-1], f)
  }

  /** Extending the folded list by one element is one more step. */
  lemma {:induction false} FoldSnoc<T>(acc: T, xs: seq<T>, x: T, f: (T, T) -> Result<T>)
    ensures Fold(acc, xs + [x], f) == Then(Fold(acc, xs, f), x, f)
    decreases |xs|
  {
    if |xs| == 0 {
      assert (xs + [x])[1..] == [];
    } else {
      assert (xs + [x])[0] == xs[0];
      assert (xs + [x])[1..] == xs[1..] + [x];
      var a := f(acc, xs[0]);
      if a.Ok? {
        FoldSnoc(a.value, xs[1..], x, f);
      }
    }
  }

  /** The left fold and the reading from the end agree on every list. */
  lemma {:induction false} ReduceIsFromEnd<T>(xs: seq<T>, f: (T, T) -> Result<T>)
    ensures Reduce(xs, f) == ReduceFromEnd(xs, f)
    decreases |xs|
  {
    if |xs| > 1 {
      var init := xs[..|xs|-1];
      ReduceIsFromEnd(init, f);
      assert xs[1..] == init[1..] + [xs[|xs|-1]];
      assert init[0] == xs[0];
      FoldSnoc(xs[0], init[1..], xs[|xs|-1], f);
    }
  }

  /** Reducing one element more: the reduction of the longer prefix is the
      reduction of the shorter one, combined with the new element. */
  lemma ReducePrefix<T>(xs: seq<T>, n: nat, f: (T, T) -> Result<T>)
    requires 0 < n < |xs|
    ensures Reduce(xs[..n+1], f) == Then(Reduce(xs[..n], f), xs[n], f)
  {
    ReduceIsFromEnd(xs[..n+1], f);
    ReduceIsFromEnd(xs[..n], f);
    assert xs[..n+1][..n] == xs[..n];
  }

  // ------------------------------------------------------------ min and max

  /** Python's two-argument `min`: the second operand only when it is strictly smaller. */
  function Min2(x: int, y: int): Result<int>
  {
    Ok(if y < x then y else x)
  }

  /** Python's two-argument `max`: the second operand only when it is strictly larger. */
  function Max2(x: int, y: int): Result<int>
  {
    Ok(if y > x then y else x)
  }

  lemma {:induction false} FoldMinBounds(acc: int, xs: seq<int>)
    ensures Fold(acc, xs, Min2).Ok?
    ensures var m := Fold(acc, xs, Min2).value;
            (m == acc || m in xs) && m <= acc && forall i :: 0 <= i < |xs| ==> m <= xs[i]
    decreases |xs|
  {
    if |xs| > 0 {
      var a := if xs[0] < acc then xs[0] else acc;
      FoldMinBounds(a, xs[1..]);
      var m := Fold(a, xs[1..], Min2).value;
      assert m in xs[1..] ==> m in xs;
      forall i | 0 <= i < |xs|
        ensures m <= xs[i]
      {
        if i > 0 {
          assert xs[i] == xs[1..][i-1];
        }
      }
    }
  }

  lemma {:induction false} FoldMaxBounds(acc: int, xs: seq<int>)
    ensures Fold(acc, xs, Max2).Ok?
    ensures var m := Fold(acc, xs, Max2).value;
            (m == acc || m in xs) && m >= acc && forall i :: 0 <= i < |xs| ==> m >= xs[i]
    decreases |xs|
  {
    if |xs| > 0 {
      var a := if xs[0] > acc then xs[0] else acc;
      FoldMaxBounds(a, xs[1..]);
      var m := Fold(a, xs[1..], Max2).value;
      assert m in xs[1..] ==> m in xs;
      forall i | 0 <= i < |xs|
        ensures m >= xs[i]
      {
        if i > 0 {
          assert xs[i] == xs[1..][i-1];
        }
      }
    }
  }

  /** `minimum`: an element of the list no larger than any other; an
      empty list raises `TypeError`. */
  function Minimum(xs: seq<int>): (r: Result<int>)
    ensures r.Ok? <==> |xs| > 0
    ensures r.Err? ==> r.error == TypeError
    ensures r.Ok? ==> r.value in xs && forall i :: 0 <= i < |xs| ==> r.value <= xs[i]
  {
    if |xs| == 0 then Err(TypeError)
    else
      FoldMinBounds(xs[0], xs[1..]);
      var r := Reduce(xs, Min2);
      assert forall i :: 1 <= i < |xs| ==> xs[i] == xs[1..][i-1];
      assert r.value in xs[1..] ==> r.value in xs;
      r
  }

  /** `maximum`: an element of the list no smaller than any other; an
      empty list raises `TypeError`. */
  function Maximum(xs: seq<int>): (r: Result<int>)
    ensures r.Ok? <==> |xs| > 0
    ensures r.Err? ==> r.error == TypeError
    ensures r.Ok? ==> r.value in xs && forall i :: 0 <= i < |xs| ==> r.value >= xs[i]
  {
    if |xs| == 0 then Err(TypeError)
    else
      FoldMaxBounds(xs[0], xs[1..]);
      var r := Reduce(xs, Max2);
      assert forall i :: 1 <= i < |xs| ==> xs[i] == xs[1..][i-1];
      assert r.value in xs[1..] ==> r.value in xs;
      r
  }

  // ------------------------------------------------------------ element-wise calls

  /** A list comprehension over a fallible call: one result per element,
      in order, or the failure of the first element that fails. */
  function MapAll<T, U>(xs: seq<T>, f: T -> Result<U>): (r: Result<seq<U>>)
    ensures r.Ok? ==> |r.value| == |xs| && forall i :: 0 <= i < |xs| ==> f(xs[i]) == Ok(r.value[i])
    ensures r.Ok? <==> forall i :: 0 <= i < |xs| ==> f(xs[i]).Ok?
    ensures r.Err? ==> exists i :: 0 <= i < |xs| && f(xs[i]) == Err(r.error) &&
                                  forall j :: 0 <= j < i ==> f(xs[j]).Ok?
    decreases |xs|
  {
    if |xs| == 0 then Ok([])
    else
      var y :- f(xs[0]);
      var ys :- MapAll(xs[1..], f);
      assert forall i :: 1 <= i < |xs| ==> xs[i] == xs[1..][i-1];
      Ok([y] + ys)
  }
}
