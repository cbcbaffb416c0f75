/** The plain `Num` and `Range` classes of the number module: operations
    guarded by an exact-type check, on top of the range payload algebra.
 */
module Nums {
  import opened Outcomes
  import opened Ranges

  /** An instance of one of the module's two classes. */
  datatype Obj = NumObj(num: int) | RangeObj(range: Range)

  /** The `sametype` guard: both operands must be of the same class. */
  function SameType(a: Obj, b: Obj): (r: Result<()>)
    ensures r.Ok? <==> (a.NumObj? <==> b.NumObj?)
    ensures r.Err? ==> r.error == TypeError
  {
    Need(a.NumObj? == b.NumObj?, TypeError)
  }

  /** `Num.add` as written: after the guard it reads `self.value`, whose
      property getter returns `self.value` again and recurses until
      Python's recursion limit. No call succeeds. */
  function NumAddAsWritten(a: int, other: Obj): (r: Result<Obj>)
    ensures other.NumObj? ==> r == Err(RecursionError)
    ensures other.RangeObj? ==> r == Err(TypeError)
  {
    var _ :- SameType(NumObj(a), other);
    Err(RecursionError)
  }

  /** `Num.add` with the getter returning the stored number. */
  function NumAdd(a: int, other: Obj): (r: Result<Obj>)
    ensures r.Ok? <==> other.NumObj?
    ensures r.Ok? ==> r.value.NumObj? && r.value.num - other.num == a
    ensures r.Err? ==> r.error == TypeError
  {
    var _ :- SameType(NumObj(a), other);
    Ok(NumObj(a + other.num))
  }

  /** `Num.subtract` with the getter returning the stored number. */
  function NumSubtract(a: int, other: Obj): (r: Result<Obj>)
    ensures r.Ok? <==> other.NumObj?
    ensures r.Ok? ==> r.value.NumObj? && r.value.num + other.num == a
    ensures r.Err? ==> r.error == TypeError
  {
    var _ :- SameType(NumObj(a), other);
    Ok(NumObj(a - other.num))
  }

  /** Subtracting what was added gives the number back. */
  lemma NumAddThenSubtract(a: int, b: int)
    ensures NumSubtract(NumAdd(a, NumObj(b)).value.num, NumObj(b)) == Ok(NumObj(a))
  {
  }

  /** `Range.add`: the guard, then adjacency-checked union. */
  function RangeAdd(a: Range, other: Obj): (r: Result<Range>)
    ensures other.NumObj? ==> r == Err(TypeError)
    ensures other.RangeObj? ==> r == Add(a, other.range)
  {
    var _ :- SameType(RangeObj(a), other);
    Add(a, other.range)
  }

  /** `Range.subtract`: the guard, then end-anchored subtraction. */
  function RangeSubtract(a: Range, other: Obj): (r: Result<Range>)
    ensures other.NumObj? ==> r == Err(TypeError)
    ensures other.RangeObj? ==> r == Subtract(a, other.range)
  {
    var _ :- SameType(RangeObj(a), other);
    Subtract(a, other.range)
  }
}
