/** The list helpers of `varrays.py`: lists of variables built from
    values, the single datatype a list must share, running sums whose
    direction names are the reverse of those in `arrays.py`, and the mean
    and the weighted average with fractional default weights.
 */
module Varrays {
  import opened Outcomes
  import opened Folds
  import opened Registry
  import opened Variables
  import Arrays

  /** `varray_fromvalues`: the variable type called on every value, in
      order. A list of no values builds nothing and so cannot fail. */
  function FromValues<P>(target: Target, data: seq<P>, check: (Spec, P) -> bool): (r: Result<seq<Var<P>>>)
    ensures r.Ok? <==> |data| == 0 || (target.CustomType? && forall i :: 0 <= i < |data| ==> check(target.t.spec, data[i]))
    ensures r.Ok? ==> |r.value| == |data|
    ensures r.Ok? && |data| > 0 ==>
      (target.CustomType? && forall i :: 0 <= i < |data| ==> r.value[i] == Var(CustomClass(target.t), data[i]))
    ensures r.Err? ==> r.error == (if target.CustomType? then Validation else NotCreated)
  {
    MapAll(data, x => New(target, x, check))
  }

  /** The distinct datatypes among the items. */
  function Datatypes<T>(v: seq<T>, dtype: T -> string): set<string>
  {
    set i | 0 <= i < |v| :: dtype(v[i])
  }

  /** `varray_datatype`: the one datatype every item shares; an empty list
      or a mixed one fails the assertion. */
  function VarrayDatatype<T>(v: seq<T>, dtype: T -> string): (r: Result<string>)
    ensures r.Ok? <==> |Datatypes(v, dtype)| == 1
    ensures r.Ok? ==> Datatypes(v, dtype) == {r.value}
    ensures r.Ok? <==> |v| > 0 && forall i :: 0 <= i < |v| ==> dtype(v[i]) == dtype(v[0])
    ensures r.Err? ==> r.error == AssertionError
  {
    var ds := Datatypes(v, dtype);
    if |v| > 0 && forall i :: 0 <= i < |v| ==> dtype(v[i]) == dtype(v[0]) then
      assert ds == {dtype(v[0])};
      Ok(dtype(v[0]))
    else if |v| == 0 then
      assert ds == {};
      Err(AssertionError)
    else
      var j :| 0 <= j < |v| && dtype(v[j]) != dtype(v[0]);
      assert {dtype(v[0]), dtype(v[j])} <= ds;
      SubsetCard({dtype(v[0]), dtype(v[j])}, ds);
      Err(AssertionError)
  }

  lemma SubsetCard<A>(a: set<A>, b: set<A>)
    requires a <= b
    ensures |a| <= |b|
  {
    assert b == a + (b - a);
  }

  /** `cumulate`: the items must share one datatype. Ranges sum from the
      front for `lower` and from the back for `upper`; numbers call
      `cumulate` on the list itself, an `AttributeError`; any other
      datatype or direction raises `TypeError`. */
  function Cumulate<T>(v: seq<T>, direction: string, dtype: T -> string, add: (T, T) -> Result<T>): (r: Result<seq<T>>)
    ensures VarrayDatatype(v, dtype).Err? ==> r == Err(AssertionError)
    ensures var d := VarrayDatatype(v, dtype);
            d.Ok? && d.value != "range" && d.value != "num" ==> r == Err(TypeError)
    ensures VarrayDatatype(v, dtype) == Ok("num") ==>
      r == Err(if direction == "lower" || direction == "upper" then AttributeError else TypeError)
    ensures VarrayDatatype(v, dtype) == Ok("range") && direction != "lower" && direction != "upper" ==>
      r == Err(TypeError)
    ensures VarrayDatatype(v, dtype) == Ok("range") && direction == "lower" ==>
      (r.Ok? <==> forall i :: 0 <= i < |v| ==> Arrays.PrefixSum(v, i, add).Ok?) &&
      (r.Ok? ==> |r.value| == |v| && forall i :: 0 <= i < |v| ==> Arrays.PrefixSum(v, i, add) == Ok(r.value[i]))
    ensures VarrayDatatype(v, dtype) == Ok("range") && direction == "upper" ==>
      (r.Ok? <==> forall i :: 0 <= i < |v| ==> Reduce(Arrays.Reverse(v[i..]), add).Ok?) &&
      (r.Ok? ==> |r.value| == |v| && forall i :: 0 <= i < |v| ==> Reduce(Arrays.Reverse(v[i..]), add) == Ok(r.value[i]))
  {
    var d :- VarrayDatatype(v, dtype);
    if d == "range" then
      if direction == "lower" then Arrays.Upward(v, add)
      else if direction == "upper" then Arrays.Downward(v, add)
      else Err(TypeError)
    else if d == "num" then
      if direction == "lower" || direction == "upper" then Err(AttributeError) else Err(TypeError)
    else Err(TypeError)
  }

  /** The two modules name the directions the opposite way round: on a
      list of ranges, `lower` here is `upper` there and vice versa. */
  lemma DirectionsSwapped<T>(v: seq<T>, dtype: T -> string, add: (T, T) -> Result<T>)
    requires VarrayDatatype(v, dtype) == Ok("range")
    ensures Cumulate(v, "lower", dtype, add) == Arrays.Cumulate(v, "upper", add)
    ensures Cumulate(v, "upper", dtype, add) == Arrays.Cumulate(v, "lower", add)
  {
  }

  // ------------------------------------------------------------ mean and average

  function RealAdd(x: real, y: real): Result<real>
  {
    Ok(x + y)
  }

  /** The plain total, from the front. */
  function RSum(xs: seq<real>): real
  {
    if |xs| == 0 then 0.0 else xs[0] + RSum(xs[1..])
  }

  /** The weighted total, from the front. */
  function RDot(v: seq<real>, w: seq<real>): real
    requires |v| == |w|
  {
    if |v| == 0 then 0.0 else v[0] * w[0] + RDot(v[1..], w[1..])
  }

  function RProducts(v: seq<real>, w: seq<real>): (r: seq<real>)
    requires |v| == |w|
    ensures |r| == |v| && forall i :: 0 <= i < |v| ==> r[i] == v[i] * w[i]
  {
    seq(|v|, i requires 0 <= i < |v| => v[i] * w[i])
  }

  lemma {:induction false} FoldRealAdd(acc: real, xs: seq<real>)
    ensures Fold(acc, xs, RealAdd) == Ok(acc + RSum(xs))
    decreases |xs|
  {
    if |xs| > 0 {
      FoldRealAdd(acc + xs[0], xs[1..]);
    }
  }

  /** `summation` of numbers is their total. */
  lemma ReduceRealAdd(xs: seq<real>)
    requires |xs| > 0
    ensures Reduce(xs, RealAdd) == Ok(RSum(xs))
  {
    FoldRealAdd(xs[0], xs[1..]);
  }

  lemma {:induction false} RSumProducts(v: seq<real>, w: seq<real>)
    requires |v| == |w|
    ensures RSum(RProducts(v, w)) == RDot(v, w)
    decreases |v|
  {
    if |v| > 0 {
      RSumProducts(v[1..], w[1..]);
      assert forall i :: 0 <= i < |v| - 1 ==> RProducts(v, w)[1..][i] == RProducts(v[1..], w[1..])[i];
      assert RProducts(v, w)[1..] == RProducts(v[1..], w[1..]);
    }
  }

  /** Equal weights scale the total. */
  lemma {:induction false} RDotConstant(v: seq<real>, c: real)
    ensures RDot(v, Arrays.Repeat(c, |v|)) == RSum(v) * c
    decreases |v|
  {
    if |v| > 0 {
      RDotConstant(v[1..], c);
      assert Arrays.Repeat(c, |v|)[1..] == Arrays.Repeat(c, |v| - 1);
    }
  }

  /** `mean`: the total divided by the count; the reduction of an empty
      list fails before the division. */
  function Mean(v: seq<real>): (r: Result<real>)
    ensures r.Ok? <==> |v| > 0
    ensures r.Err? ==> r.error == TypeError
    ensures r.Ok? ==> r.value * |v| as real == RSum(v)
  {
    assert |v| > 0 ==> Reduce(v, RealAdd) == Ok(RSum(v)) by {
      if |v| > 0 { ReduceRealAdd(v); }
    }
    var s :- Reduce(v, RealAdd);
    Ok(s / |v| as real)
  }

  /** `average`: without weights (absent or empty) every item weighs
      `1/len`, which divides by zero on an empty list; weights of the wrong
      length fail the assertion. */
  function Average(v: seq<real>, weights: Option<seq<real>>): (r: Result<real>)
    ensures var given := weights.Some? && |weights.value| > 0;
            r.Ok? <==> |v| > 0 && (!given || |weights.value| == |v|)
    ensures |v| == 0 && (weights.None? || |weights.value| == 0) ==> r == Err(ZeroDivisionError)
    ensures weights.Some? && 0 < |weights.value| != |v| ==> r == Err(AssertionError)
    ensures r.Ok? && (weights.None? || |weights.value| == 0) ==> r.value * |v| as real == RSum(v)
    ensures r.Ok? && weights.Some? && |weights.value| > 0 ==> r.value == RDot(v, weights.value)
  {
    if (weights.None? || |weights.value| == 0) && |v| == 0 then Err(ZeroDivisionError)
    else
      var w := if weights.None? || |weights.value| == 0 then Arrays.Repeat(1.0 / |v| as real, |v|) else weights.value;
      if |w| != |v| then Err(AssertionError)
      else
        var products := RProducts(v, w);
        ReduceRealAdd(products);
        RSumProducts(v, w);
        RDotConstant(v, 1.0 / |v| as real);
        Reduce(products, RealAdd)
  }

  /** Without weights the average is the mean. */
  lemma DefaultAverageIsMean(v: seq<real>)
    requires |v| > 0
    ensures Average(v, None) == Mean(v)
  {
    var n := |v| as real;
    var a := Average(v, None).value;
    var m := Mean(v).value;
    assert a * n == m * n;
  }
}
