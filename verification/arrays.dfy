/** The list helpers of `arrays.py`: running sums in either direction,
    the weighted total, and the element-wise method call.
 */
module Arrays {
  import opened Outcomes
  import opened Folds
  import Variables

  /** `xs[::-1]`. */
  function Reverse<T>(xs: seq<T>): (r: seq<T>)
    ensures |r| == |xs|
    ensures forall i :: 0 <= i < |xs| ==> r[i] == xs[|xs| - 1 - i]
  {
    seq(|xs|, i requires 0 <= i < |xs| => xs[|xs| - 1 - i])
  }

  lemma ReverseReverse<T>(xs: seq<T>)
    ensures Reverse(Reverse(xs)) == xs
  {
  }

  /** The first `k` elements of the reversed list are the tail from
      `|xs| - k`, reversed. */
  lemma ReversePrefix<T>(xs: seq<T>, i: nat)
    requires i <= |xs|
    ensures Reverse(xs)[..|xs| - i] == Reverse(xs[i..])
  {
  }

  /** The reduction of the tail from `i`, read backwards, is a prefix
      reduction of the reversed list. */
  lemma ReversedPrefixSums<T>(v: seq<T>, add: (T, T) -> Result<T>)
    ensures forall i :: 0 <= i < |v| ==> Reduce(Reverse(v[i..]), add) == PrefixSum(Reverse(v), |v| - 1 - i, add)
    ensures forall k :: 0 <= k < |v| ==> PrefixSum(Reverse(v), k, add) == Reduce(Reverse(v[|v| - 1 - k..]), add)
  {
    forall i | 0 <= i < |v|
      ensures Reduce(Reverse(v[i..]), add) == PrefixSum(Reverse(v), |v| - 1 - i, add)
    {
      ReversePrefix(v, i);
    }
    forall k | 0 <= k < |v|
      ensures PrefixSum(Reverse(v), k, add) == Reduce(Reverse(v[|v| - 1 - k..]), add)
    {
      ReversePrefix(v, |v| - 1 - k);
    }
  }

  /** `summation(x[0:i+1])`: the reduction of the elements up to and including `i`. */
  function PrefixSum<T>(x: seq<T>, i: nat, add: (T, T) -> Result<T>): Result<T>
    requires i < |x|
  {
    Reduce(x[..i+1], add)
  }

  /** The comprehension `[summation(x[0:i+1]) for i in range(n)]`: the
      reductions of the first `n` prefixes, in order, or the failure of the
      shortest prefix that fails. */
  function Prefixes<T>(x: seq<T>, n: nat, add: (T, T) -> Result<T>): (r: Result<seq<T>>)
    requires n <= |x|
    ensures r.Ok? <==> forall i :: 0 <= i < n ==> PrefixSum(x, i, add).Ok?
    ensures r.Ok? ==> |r.value| == n && forall i :: 0 <= i < n ==> PrefixSum(x, i, add) == Ok(r.value[i])
    ensures r.Err? ==> exists i :: 0 <= i < n && PrefixSum(x, i, add) == Err(r.error) &&
                                  forall j :: 0 <= j < i ==> PrefixSum(x, j, add).Ok?
  {
    if n == 0 then Ok([])
    else
      var init :- Prefixes(x, n - 1, add);
      var s :- PrefixSum(x, n - 1, add);
      Ok(init + [s])
  }

  /** Once a prefix fails, every longer run of prefixes fails the same way. */
  lemma {:induction false} PrefixesStick<T>(x: seq<T>, m: nat, n: nat, add: (T, T) -> Result<T>)
    requires m <= n <= |x|
    requires Prefixes(x, m, add).Err?
    ensures Prefixes(x, n, add) == Prefixes(x, m, add)
    decreases n
  {
    if n > m {
      PrefixesStick(x, m, n - 1, add);
    }
  }

  /** The running sums from the front: element `i` is the sum of elements
      `0..i`. */
  function Upward<T>(v: seq<T>, add: (T, T) -> Result<T>): (r: Result<seq<T>>)
    ensures r.Ok? <==> forall i :: 0 <= i < |v| ==> PrefixSum(v, i, add).Ok?
    ensures r.Ok? ==> |r.value| == |v| && forall i :: 0 <= i < |v| ==> PrefixSum(v, i, add) == Ok(r.value[i])
  {
    Prefixes(v, |v|, add)
  }

  /** The running sums from the back, `function(x[::-1])[::-1]`: element
      `i` is the sum of elements `i..`, taken from the end backwards. */
  function Downward<T>(v: seq<T>, add: (T, T) -> Result<T>): (r: Result<seq<T>>)
    ensures r.Ok? <==> forall i :: 0 <= i < |v| ==> Reduce(Reverse(v[i..]), add).Ok?
    ensures r.Ok? ==> |r.value| == |v| && forall i :: 0 <= i < |v| ==> Reduce(Reverse(v[i..]), add) == Ok(r.value[i])
  {
    var s := Prefixes(Reverse(v), |v|, add);
    ReversedPrefixSums(v, add);
    if s.Err? then Err(s.error) else Ok(Reverse(s.value))
  }

  /** `cumulate`: `upper` sums from the front, `lower` from the back, and
      any other direction raises `TypeError`. */
  function Cumulate<T>(v: seq<T>, direction: string, add: (T, T) -> Result<T>): (r: Result<seq<T>>)
    ensures direction != "upper" && direction != "lower" ==> r == Err(TypeError)
    ensures r.Ok? ==> |r.value| == |v|
    ensures direction == "upper" ==>
      (r.Ok? <==> forall i :: 0 <= i < |v| ==> PrefixSum(v, i, add).Ok?)
    ensures direction == "upper" && r.Ok? ==>
      forall i :: 0 <= i < |v| ==> PrefixSum(v, i, add) == Ok(r.value[i])
    ensures direction == "lower" ==>
      (r.Ok? <==> forall i :: 0 <= i < |v| ==> Reduce(Reverse(v[i..]), add).Ok?)
    ensures direction == "lower" && r.Ok? ==>
      forall i :: 0 <= i < |v| ==> Reduce(Reverse(v[i..]), add) == Ok(r.value[i])
  {
    if direction == "upper" then Upward(v, add)
    else if direction == "lower" then Downward(v, add)
    else Err(TypeError)
  }

  /** The last running sum from the front and the first from the back
      both add up the whole list, in opposite orders. */
  lemma EndsAreTotals<T>(v: seq<T>, add: (T, T) -> Result<T>)
    requires |v| > 0 && Upward(v, add).Ok? && Downward(v, add).Ok?
    ensures Ok(Upward(v, add).value[|v| - 1]) == Reduce(v, add)
    ensures Ok(Downward(v, add).value[0]) == Reduce(Reverse(v), add)
  {
    assert v[..|v| - 1 + 1] == v;
    assert v[0..] == v;
  }

  /** `upper` computed with one running total instead of one reduction per
      prefix: the same list, or the same failure. */
  method CumulateUpward<T>(v: seq<T>, add: (T, T) -> Result<T>) returns (r: Result<seq<T>>)
    ensures r == Cumulate(v, "upper", add)
  {
    if |v| == 0 {
      return Ok([]);
    }
    var acc := v[0];
    var out := [acc];
    assert |v[..1]| == 1 && v[..1][0] == v[0];
    assert PrefixSum(v, 0, add) == Ok(v[0]);
    assert Prefixes(v, 0, add) == Ok([]);
    assert [] + out == out;
    assert Prefixes(v, 1, add) == Ok(out);
    var i := 1;
    while i < |v|
      invariant 1 <= i <= |v|
      invariant Prefixes(v, i, add) == Ok(out)
      invariant Reduce(v[..i], add) == Ok(acc)
    {
      ReducePrefix(v, i, add);
      var next := add(acc, v[i]);
      if next.Err? {
        assert Prefixes(v, i + 1, add) == Err(next.error);
        PrefixesStick(v, i + 1, |v|, add);
        return Err(next.error);
      }
      acc := next.value;
      out := out + [acc];
      i := i + 1;
    }
    return Ok(out);
  }

  /** `consolidate`: the named method called on every element, in order. */
  function Consolidate<T, U>(v: seq<T>, call: T -> Result<U>): (r: Result<seq<U>>)
    ensures r.Ok? <==> forall i :: 0 <= i < |v| ==> call(v[i]).Ok?
    ensures r.Ok? ==> |r.value| == |v| && forall i :: 0 <= i < |v| ==> call(v[i]) == Ok(r.value[i])
  {
    MapAll(v, call)
  }

  // ------------------------------------------------------------ weighted totals

  function Repeat<T>(x: T, n: nat): (r: seq<T>)
    ensures |r| == n && forall i :: 0 <= i < n ==> r[i] == x
  {
    seq(n, i requires 0 <= i < n => x)
  }

  /** The plain total, from the front. */
  function Sum(xs: seq<int>): int
  {
    if |xs| == 0 then 0 else xs[0] + Sum(xs[1..])
  }

  /** The weighted total, from the front. */
  function Dot(v: seq<int>, w: seq<int>): int
    requires |v| == |w|
  {
    if |v| == 0 then 0 else v[0] * w[0] + Dot(v[1..], w[1..])
  }

  function IntAdd(x: int, y: int): Result<int>
  {
    Ok(x + y)
  }

  /** `item.multiply(weight)` for each pair of `zip(varray, weights)`. */
  function Products(v: seq<int>, w: seq<int>): (r: seq<int>)
    requires |v| == |w|
    ensures |r| == |v| && forall i :: 0 <= i < |v| ==> r[i] == v[i] * w[i]
  {
    seq(|v|, i requires 0 <= i < |v| => v[i] * w[i])
  }

  lemma {:induction false} FoldIntAdd(acc: int, xs: seq<int>)
    ensures Fold(acc, xs, IntAdd) == Ok(acc + Sum(xs))
    decreases |xs|
  {
    if |xs| > 0 {
      FoldIntAdd(acc + xs[0], xs[1..]);
    }
  }

  /** `summation` of numbers is their total. */
  lemma ReduceIntAdd(xs: seq<int>)
    requires |xs| > 0
    ensures Reduce(xs, IntAdd) == Ok(Sum(xs))
  {
    FoldIntAdd(xs[0], xs[1..]);
  }

  lemma {:induction false} SumProducts(v: seq<int>, w: seq<int>)
    requires |v| == |w|
    ensures Sum(Products(v, w)) == Dot(v, w)
    decreases |v|
  {
    if |v| > 0 {
      SumProducts(v[1..], w[1..]);
      assert Products(v, w)[1..] == Products(v[1..], w[1..]);
    }
  }

  lemma {:induction false} DotOnes(v: seq<int>)
    ensures Dot(v, Repeat(1, |v|)) == Sum(v)
    decreases |v|
  {
    if |v| > 0 {
      DotOnes(v[1..]);
      assert Repeat(1, |v|)[1..] == Repeat(1, |v| - 1);
    }
  }

  /** `average`: without weights (absent or empty) every element weighs 1;
      weights of the wrong length fail the assertion; the weighted total of
      an empty list is the failed reduction of nothing. */
  function Average(v: seq<int>, weights: Option<seq<int>>): (r: Result<int>)
    ensures var given := weights.Some? && |weights.value| > 0;
            r.Ok? <==> |v| > 0 && (!given || |weights.value| == |v|)
    ensures weights.Some? && 0 < |weights.value| != |v| ==> r == Err(AssertionError)
    ensures |v| == 0 && (weights.None? || |weights.value| == 0) ==> r == Err(TypeError)
    ensures r.Ok? && (weights.None? || |weights.value| == 0) ==> r.value == Sum(v)
    ensures r.Ok? && weights.Some? && |weights.value| > 0 ==> r.value == Dot(v, weights.value)
  {
    var w := if weights.None? || |weights.value| == 0 then Repeat(1, |v|) else weights.value;
    if |w| != |v| then Err(AssertionError)
    else
      var products := Products(v, w);
      if |v| == 0 then Reduce(products, IntAdd)
      else
        ReduceIntAdd(products);
        SumProducts(v, w);
        DotOnes(v);
        Reduce(products, IntAdd)
  }

  // ------------------------------------------------------------ minimum and maximum of variables

  type Item = Variables.Var<int>

  /** The comparison guard lets the two items be compared. */
  predicate Kin(a: Item, b: Item)
  {
    Variables.SameVariable(a.cls, b.cls).Ok?
  }

  /** An item compares with `a` exactly when it compares with any `b` that `a` compares with. */
  lemma KinSwap(a: Item, b: Item, x: Item)
    requires Kin(a, b)
    ensures Kin(x, a) <==> Kin(x, b)
  {
    Variables.SameVariableEquivalence(a.cls, b.cls, x.cls);
    Variables.SameVariableEquivalence(x.cls, a.cls, b.cls);
    Variables.SameVariableEquivalence(x.cls, b.cls, a.cls);
    Variables.SameVariableEquivalence(b.cls, a.cls, x.cls);
  }

  /** `min(x, y)`: `y` is taken only when `y < x`, and that comparison
      goes through the variables' guard. */
  function Min2(x: Item, y: Item): Result<Item>
  {
    var less :- Variables.Compare(y, x, Variables.Less);
    Ok(if less then y else x)
  }

  /** `max(x, y)`: `y` is taken only when `y > x`. */
  function Max2(x: Item, y: Item): Result<Item>
  {
    var greater :- Variables.Compare(y, x, Variables.Greater);
    Ok(if greater then y else x)
  }

  lemma {:induction false} FoldMin(acc: Item, xs: seq<Item>)
    ensures Fold(acc, xs, Min2).Ok? <==> forall i :: 0 <= i < |xs| ==> Kin(xs[i], acc)
    ensures Fold(acc, xs, Min2).Err? ==> Fold(acc, xs, Min2).error == TypeError
    ensures var r := Fold(acc, xs, Min2);
            r.Ok? ==> (r.value == acc || r.value in xs) && Kin(r.value, acc) && r.value.value <= acc.value &&
                      forall i :: 0 <= i < |xs| ==> r.value.value <= xs[i].value
    decreases |xs|
  {
    Variables.SameVariableEquivalence(acc.cls, acc.cls, acc.cls);
    if |xs| > 0 {
      var step := Min2(acc, xs[0]);
      assert step.Ok? <==> Kin(xs[0], acc);
      if step.Ok? {
        var a := step.value;
        assert Kin(a, acc);
        forall x: Item ensures Kin(x, a) <==> Kin(x, acc) {
          KinSwap(a, acc, x);
        }
        FoldMin(a, xs[1..]);
        assert forall i :: 1 <= i < |xs| ==> xs[i] == xs[1..][i - 1];
        var r := Fold(a, xs[1..], Min2);
        assert r.Ok? ==> (r.value == a || r.value in xs[1..]);
        if r.Ok? {
          KinSwap(a, acc, r.value);
        }
      }
    }
  }

  lemma {:induction false} FoldMax(acc: Item, xs: seq<Item>)
    ensures Fold(acc, xs, Max2).Ok? <==> forall i :: 0 <= i < |xs| ==> Kin(xs[i], acc)
    ensures Fold(acc, xs, Max2).Err? ==> Fold(acc, xs, Max2).error == TypeError
    ensures var r := Fold(acc, xs, Max2);
            r.Ok? ==> (r.value == acc || r.value in xs) && Kin(r.value, acc) && r.value.value >= acc.value &&
                      forall i :: 0 <= i < |xs| ==> r.value.value >= xs[i].value
    decreases |xs|
  {
    Variables.SameVariableEquivalence(acc.cls, acc.cls, acc.cls);
    if |xs| > 0 {
      var step := Max2(acc, xs[0]);
      assert step.Ok? <==> Kin(xs[0], acc);
      if step.Ok? {
        var a := step.value;
        assert Kin(a, acc);
        forall x: Item ensures Kin(x, a) <==> Kin(x, acc) {
          KinSwap(a, acc, x);
        }
        FoldMax(a, xs[1..]);
        assert forall i :: 1 <= i < |xs| ==> xs[i] == xs[1..][i - 1];
        var r := Fold(a, xs[1..], Max2);
        assert r.Ok? ==> (r.value == a || r.value in xs[1..]);
        if r.Ok? {
          KinSwap(a, acc, r.value);
        }
      }
    }
  }

  /** `minimum`: an item whose payload is no larger than any other's. The
      reduction compares each item with the running minimum, so a list
      holding items of different specs raises `TypeError`, as does an
      empty list. */
  function Minimum(xs: seq<Item>): (r: Result<Item>)
    ensures r.Ok? <==> |xs| > 0 && forall i :: 0 <= i < |xs| ==> Kin(xs[i], xs[0])
    ensures r.Err? ==> r.error == TypeError
    ensures r.Ok? ==> r.value in xs && forall i :: 0 <= i < |xs| ==> r.value.value <= xs[i].value
  {
    if |xs| == 0 then Err(TypeError)
    else
      FoldMin(xs[0], xs[1..]);
      Variables.SameVariableEquivalence(xs[0].cls, xs[0].cls, xs[0].cls);
      assert forall i :: 1 <= i < |xs| ==> xs[i] == xs[1..][i - 1];
      var r := Reduce(xs, Min2);
      assert r.Ok? ==> r.value in xs[1..] ==> r.value in xs;
      r
  }

  /** `maximum`: an item whose payload is no smaller than any other's;
      mixed specs and an empty list raise `TypeError`. */
  function Maximum(xs: seq<Item>): (r: Result<Item>)
    ensures r.Ok? <==> |xs| > 0 && forall i :: 0 <= i < |xs| ==> Kin(xs[i], xs[0])
    ensures r.Err? ==> r.error == TypeError
    ensures r.Ok? ==> r.value in xs && forall i :: 0 <= i < |xs| ==> r.value.value >= xs[i].value
  {
    if |xs| == 0 then Err(TypeError)
    else
      FoldMax(xs[0], xs[1..]);
      Variables.SameVariableEquivalence(xs[0].cls, xs[0].cls, xs[0].cls);
      assert forall i :: 1 <= i < |xs| ==> xs[i] == xs[1..][i - 1];
      var r := Reduce(xs, Max2);
      assert r.Ok? ==> r.value in xs[1..] ==> r.value in xs;
      r
  }

  function Payloads(xs: seq<Item>): (r: seq<int>)
    ensures |r| == |xs| && forall i :: 0 <= i < |xs| ==> r[i] == xs[i].value
  {
    seq(|xs|, i requires 0 <= i < |xs| => xs[i].value)
  }

  /** On comparable items, the extremes are those of the bare payloads. */
  lemma ExtremesOfPayloads(xs: seq<Item>)
    requires Minimum(xs).Ok?
    ensures Maximum(xs).Ok?
    ensures Folds.Minimum(Payloads(xs)) == Ok(Minimum(xs).value.value)
    ensures Folds.Maximum(Payloads(xs)) == Ok(Maximum(xs).value.value)
  {
    var ps := Payloads(xs);
    var m := Folds.Minimum(ps).value;
    var k :| 0 <= k < |xs| && Minimum(xs).value == xs[k];
    assert m <= ps[k];
    var j :| 0 <= j < |ps| && ps[j] == m;
    var n := Folds.Maximum(ps).value;
    var k2 :| 0 <= k2 < |xs| && Maximum(xs).value == xs[k2];
    assert n >= ps[k2];
    var j2 :| 0 <= j2 < |ps| && ps[j2] == n;
  }
}
