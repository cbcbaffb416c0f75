/** The range payload algebra: a pair of optional integer bounds with
    direction classification, adjacency-checked addition, end-anchored
    subtraction, cumulation and weighted averaging.

    The same rules appear in three revisions of the package (the plain
    `Range` class, the registered-kind `Range` and the decorator `Range`);
    they are stated here once, on the bare pair of bounds.
 */
module Ranges {
  import opened Outcomes

  /** `[lower, upper]`; `None` is an open (absent) bound. */
  datatype Range = Range(lower: Option<int>, upper: Option<int>)

  datatype Direction = Unbounded | Lower | Upper | State | Center

  /** Both bounds present. */
  predicate Bounded(r: Range)
  {
    r.lower.Some? && r.upper.Some?
  }

  /** The intended invariant: a bounded range does not run backwards. */
  predicate Valid(r: Range)
  {
    Bounded(r) ==> r.lower.value <= r.upper.value
  }

  /** The direction names the open side: `Lower` when only the lower bound
      is absent, `Upper` when only the upper bound is absent. */
  function DirectionOf(r: Range): (d: Direction)
    ensures d == Unbounded <==> r.lower.None? && r.upper.None?
    ensures d == Lower <==> r.lower.None? && r.upper.Some?
    ensures d == Upper <==> r.lower.Some? && r.upper.None?
    ensures d == State <==> Bounded(r) && r.lower == r.upper
    ensures d == Center <==> Bounded(r) && r.lower != r.upper
  {
    if r.lower.None? && r.upper.None? then Unbounded
    else if r.lower.None? then Lower
    else if r.upper.None? then Upper
    else if r.lower == r.upper then State
    else Center
  }

  // ---------------------------------------------------------------- add

  /** `b` ends exactly where `a` starts (the junction bound is present). */
  predicate MeetsBelow(a: Range, b: Range)
  {
    a.lower.Some? && a.lower == b.upper
  }

  /** `b` starts exactly where `a` ends (the junction bound is present). */
  predicate MeetsAbove(a: Range, b: Range)
  {
    a.upper.Some? && a.upper == b.lower
  }

  /** Adjacency-checked union. When both adjacencies hold, the first one
      (`b` below `a`) decides the result. */
  function Add(a: Range, b: Range): (r: Result<Range>)
    ensures r.Ok? <==> MeetsBelow(a, b) || MeetsAbove(a, b)
    ensures r.Err? ==> r.error == Overlap
    ensures MeetsBelow(a, b) ==> r == Ok(Range(b.lower, a.upper))
    ensures !MeetsBelow(a, b) && MeetsAbove(a, b) ==> r == Ok(Range(a.lower, b.upper))
  {
    if a.lower.Some? && b.upper.Some? && a.lower == b.upper then Ok(Range(b.lower, a.upper))
    else if a.upper.Some? && b.lower.Some? && a.upper == b.lower then Ok(Range(a.lower, b.upper))
    else Err(Overlap)
  }

  /** The sum's bounds come one from each operand, never both from the same one. */
  lemma AddTakesOneBoundFromEach(a: Range, b: Range)
    requires Add(a, b).Ok?
    ensures var s := Add(a, b).value;
      (s.lower == b.lower && s.upper == a.upper) || (s.lower == a.lower && s.upper == b.upper)
  {
  }

  /** An absent junction bound never makes two ranges adjacent. */
  lemma AddOpenJunctionFails(a: Range, b: Range)
    requires a.lower.None? || b.upper.None?
    requires a.upper.None? || b.lower.None?
    ensures Add(a, b) == Err(Overlap)
  {
  }

  /** Valid ranges stay valid under addition, and the sum spans both operands. */
  lemma AddPreservesValid(a: Range, b: Range)
    requires Valid(a) && Valid(b) && Add(a, b).Ok?
    ensures Valid(Add(a, b).value)
    ensures Covers(Add(a, b).value, a) && Covers(Add(a, b).value, b)
  {
    if MeetsBelow(a, b) {
      assert Add(a, b).value == Range(b.lower, a.upper);
    } else {
      assert Add(a, b).value == Range(a.lower, b.upper);
    }
  }

  /** On valid ranges the order of the operands does not matter: the two
      adjacencies can only both hold for two equal single-point ranges. */
  lemma AddCommutesOnValid(a: Range, b: Range)
    requires Valid(a) && Valid(b)
    ensures Add(a, b) == Add(b, a)
  {
    if MeetsBelow(a, b) && MeetsAbove(a, b) {
      assert a.lower.value <= a.upper.value && b.lower.value <= b.upper.value;
    }
  }

  /** `r` reaches at least as far as `s` on both sides, an absent bound of
      `r` reaching arbitrarily far. */
  predicate Covers(r: Range, s: Range)
  {
    && (r.lower.None? || (s.lower.Some? && r.lower.value <= s.lower.value))
    && (r.upper.None? || (s.upper.Some? && s.upper.value <= r.upper.value))
  }

  // ----------------------------------------------------------- subtract

  /** Subtraction of a range anchored at one end of `a`; the remainder is
      the rest of `a`. Comparing a present bound against an absent one is
      Python's `int > None`, a TypeError. */
  function Subtract(a: Range, b: Range): (r: Result<Range>)
    ensures b.lower == b.upper ==> r == Err(Overlap)
    ensures a.lower != b.lower && a.upper != b.upper ==> r == Err(Overlap)
    ensures r.Ok? ==> Bounded(r.value) && Valid(r.value)
    ensures r.Ok? ==>
      || (a.lower == b.lower && r.value == Range(b.upper, a.upper))
      || (a.lower != b.lower && a.upper == b.upper && r.value == Range(a.lower, b.lower))
  {
    if b.lower == b.upper then Err(Overlap)
    else if a.lower == b.lower then
      match (b.upper, a.upper)
      case (None, _) => Err(Overlap)
      case (Some(_), None) => Err(TypeError)
      case (Some(c), Some(u)) => if c > u then Err(Overlap) else Ok(Range(b.upper, a.upper))
    else if a.upper == b.upper then
      match (b.lower, a.lower)
      case (None, _) => Err(Overlap)
      case (Some(_), None) => Err(TypeError)
      case (Some(c), Some(l)) => if c < l then Err(Overlap) else Ok(Range(a.lower, b.lower))
    else Err(Overlap)
  }

  /** Left-anchored subtraction `[l, u] - [l, c]`: the remainder is `[c, u]`
      exactly when `c <= u`; an absent `c` or `c > u` is refused. */
  lemma SubtractLeftAnchored(l: Option<int>, u: int, c: Option<int>)
    requires l != c
    ensures c.None? ==> Subtract(Range(l, Some(u)), Range(l, c)) == Err(Overlap)
    ensures c.Some? && c.value > u ==> Subtract(Range(l, Some(u)), Range(l, c)) == Err(Overlap)
    ensures c.Some? && c.value <= u ==> Subtract(Range(l, Some(u)), Range(l, c)) == Ok(Range(c, Some(u)))
  {
  }

  /** Right-anchored subtraction `[l, u] - [c, u]` with distinct lower
      bounds: the remainder is `[l, c]` exactly when `c >= l`. */
  lemma SubtractRightAnchored(l: int, u: Option<int>, c: Option<int>)
    requires c != Some(l) && c != u
    ensures c.None? ==> Subtract(Range(Some(l), u), Range(c, u)) == Err(Overlap)
    ensures c.Some? && c.value < l ==> Subtract(Range(Some(l), u), Range(c, u)) == Err(Overlap)
    ensures c.Some? && c.value >= l ==> Subtract(Range(Some(l), u), Range(c, u)) == Ok(Range(Some(l), c))
  {
  }

  /** Subtracting an added range gives back the first operand, for a
      bounded non-degenerate first operand and a non-degenerate second. */
  lemma AddThenSubtract(a: Range, b: Range)
    requires Valid(a) && Valid(b)
    requires DirectionOf(a) == Center && DirectionOf(b) != State
    requires Add(a, b).Ok?
    ensures Subtract(Add(a, b).value, b) == Ok(a)
  {
    var s := Add(a, b).value;
    if MeetsBelow(a, b) {
      assert s == Range(b.lower, a.upper);
      assert b.lower != b.upper;
    } else {
      assert s == Range(a.lower, b.upper);
      assert b.lower != b.upper;
      assert s.lower != b.lower;
    }
  }

  /** Adding back what was subtracted restores the original range. */
  lemma SubtractThenAdd(a: Range, b: Range)
    requires Valid(b)
    requires Subtract(a, b).Ok?
    ensures Add(Subtract(a, b).value, b) == Ok(a)
  {
    var d := Subtract(a, b).value;
    if a.lower == b.lower {
      assert d == Range(b.upper, a.upper);
      assert MeetsBelow(d, b);
    } else {
      assert d == Range(a.lower, b.lower);
      assert !MeetsBelow(d, b);
    }
  }

  // --------------------------------------------------- transformations

  /** The cumulative value of a one-sided range under a given direction:
      the upper bound for `Lower`, the lower bound for `Upper`. */
  function CumulateBy(r: Range, d: Direction): (v: Result<Option<int>>)
    ensures v.Ok? <==> d == Lower || d == Upper
    ensures v.Err? ==> v.error == OperationError
    ensures d == Lower ==> v == Ok(r.upper)
    ensures d == Upper ==> v == Ok(r.lower)
  {
    match d
    case Lower => Ok(r.upper)
    case Upper => Ok(r.lower)
    case _ => Err(OperationError)
  }

  /** Cumulation of a range under its own direction: defined exactly for
      ranges with one open side, and it yields the present bound. */
  function Cumulate(r: Range): (v: Result<Option<int>>)
    ensures v.Ok? <==> r.lower.None? != r.upper.None?
    ensures v.Ok? ==> v.value.Some? && (v.value == r.lower || v.value == r.upper)
    ensures v.Err? ==> v.error == OperationError
  {
    CumulateBy(r, DirectionOf(r))
  }

  /** Weighted midpoint `w * lower + (1 - w) * upper` of a range whose
      direction is `Center` or `State` (the corrected guard). */
  function Average(r: Range, d: Direction, w: real): (v: Result<real>)
    ensures !(0.0 <= w <= 1.0) ==> v == Err(AssertionError)
    ensures 0.0 <= w <= 1.0 && d != Center && d != State ==> v == Err(OperationError)
    ensures v.Ok? ==> Bounded(r) && (d == Center || d == State)
    ensures v.Ok? && Valid(r) ==> r.lower.value as real <= v.value <= r.upper.value as real
    ensures v.Ok? && w == 1.0 ==> v.value == r.lower.value as real
    ensures v.Ok? && w == 0.0 ==> v.value == r.upper.value as real
    ensures 0.0 <= w <= 1.0 && (d == Center || d == State) && Bounded(r) ==>
      v == Ok(Weighted(w, r.lower.value, r.upper.value))
    ensures 0.0 <= w <= 1.0 && (d == Center || d == State) && !Bounded(r) ==> v == Err(TypeError)
  {
    if !(0.0 <= w <= 1.0) then Err(AssertionError)
    else if d != Center && d != State then Err(OperationError)
    else match (r.lower, r.upper)
      case (Some(l), Some(u)) =>
        var a := Weighted(w, l, u);
        MidpointBetween(l as real, u as real, w, a);
        assert Valid(r) ==> l as real <= u as real;
        Ok(a)
      case _ => Err(TypeError)
  }

  /** `w * lower + (1 - w) * upper`. */
  function Weighted(w: real, l: int, u: int): real
  {
    w * l as real + (1.0 - w) * u as real
  }

  /** The weight a caller gets without naming it. */
  const DefaultWeight: real := 0.5

  /** At the default weight the average is the midpoint of the bounds. */
  lemma AverageAtDefault(l: int, u: int, d: Direction)
    requires d == Center || d == State
    ensures Average(Range(Some(l), Some(u)), d, DefaultWeight) == Ok((l as real + u as real) / 2.0)
  {
  }

  /** A convex combination of two ordered reals lies between them. */
  lemma MidpointBetween(l: real, u: real, w: real, a: real)
    requires 0.0 <= w <= 1.0 && a == w * l + (1.0 - w) * u
    ensures l <= u ==> l <= a <= u
    ensures w == 1.0 ==> a == l
    ensures w == 0.0 ==> a == u
  {
    if l <= u {
      var d := u - l;
      MulNonNegative(w, d);
      MulNonNegative(1.0 - w, d);
      assert a == u - w * d;
      assert a == l + (1.0 - w) * d;
    }
  }

  lemma MulNonNegative(x: real, y: real)
    requires 0.0 <= x && 0.0 <= y
    ensures 0.0 <= x * y
  {
  }

  /** The average as the source writes its guard (`d != 'center' or
      d != 'state'`): the disjunction holds for every direction. */
  function AverageAsWritten(r: Range, d: Direction, w: real): (v: Result<real>)
    ensures v.Err?
  {
    if !(0.0 <= w <= 1.0) then Err(AssertionError)
    else if d != Center || d != State then Err(OperationError)
    else match (r.lower, r.upper)
      case (Some(l), Some(u)) => Ok(w * l as real + (1.0 - w) * u as real)
      case _ => Err(TypeError)
  }

  /** The as-written average refuses every weight in [0, 1], even on the
      bounded ranges that the corrected guard accepts. */
  lemma AverageGuardAlwaysRefuses(r: Range, w: real)
    requires Bounded(r) && Valid(r) && 0.0 <= w <= 1.0
    ensures AverageAsWritten(r, DirectionOf(r), w) == Err(OperationError)
    ensures Average(r, DirectionOf(r), w).Ok?
  {
  }

  // ------------------------------------------------------------ payload

  /** The registered-kind and decorator revisions keep the bounds in a
      list: `lower` is its first element and `upper` its last. */
  function FromPayload(p: seq<Option<int>>): (r: Result<Range>)
    ensures r.Ok? <==> |p| > 0
    ensures r.Ok? ==> r.value.lower == p[0] && r.value.upper == p[|p| - 1]
    ensures r.Err? ==> r.error == IndexError
  {
    if |p| == 0 then Err(IndexError) else Ok(Range(p[0], p[|p| - 1]))
  }

  function ToPayload(r: Range): seq<Option<int>>
  {
    [r.lower, r.upper]
  }

  lemma PayloadRoundTrip(r: Range)
    ensures FromPayload(ToPayload(r)) == Ok(r)
  {
  }

  /** The decorator revision's `add` on list payloads. The first
      adjacency (`q` ends where `p` starts) is tried first. */
  function PayloadAdd(p: seq<Option<int>>, q: seq<Option<int>>): (r: Result<seq<Option<int>>>)
    ensures (|p| == 0 || |q| == 0) ==> r == Err(IndexError)
    ensures |p| > 0 && |q| > 0 && p[0].Some? && p[0] == q[|q| - 1] ==> r == Ok([q[0], p[|p| - 1]])
    ensures (|p| > 0 && |q| > 0 && !(p[0].Some? && p[0] == q[|q| - 1]) && p[|p| - 1].Some? && p[|p| - 1] == q[0]) ==>
      r == Ok([p[0], q[|q| - 1]])
    ensures r.Ok? ==> |r.value| == 2
    ensures r.Ok? ==>
      || (p[0].Some? && p[0] == q[|q| - 1] && r.value == [q[0], p[|p| - 1]])
      || (p[|p| - 1].Some? && p[|p| - 1] == q[0] && r.value == [p[0], q[|q| - 1]])
    ensures |p| > 0 && |q| > 0 && r.Err? ==> r.error == Overlap
  {
    var a :- FromPayload(p);
    var b :- FromPayload(q);
    var s :- Add(a, b);
    Ok(ToPayload(s))
  }

  /** The decorator revision's `subtract` on list payloads. The degenerate
      test reads only `q`, so it comes before anything is read from `p`. */
  function PayloadSubtract(p: seq<Option<int>>, q: seq<Option<int>>): (r: Result<seq<Option<int>>>)
    ensures |q| == 0 ==> r == Err(IndexError)
    ensures |q| > 0 && q[0] == q[|q| - 1] ==> r == Err(Overlap)
    ensures |q| > 0 && q[0] != q[|q| - 1] && |p| == 0 ==> r == Err(IndexError)
    // anchored at the lower end: the remainder runs from `q`'s upper to `p`'s upper
    ensures |q| > 0 && q[0] != q[|q| - 1] && |p| > 0 && p[0] == q[0] ==>
      r == (match (q[|q| - 1], p[|p| - 1])
            case (None, _) => Err(Overlap)
            case (Some(_), None) => Err(TypeError)
            case (Some(c), Some(u)) => if c > u then Err(Overlap) else Ok([Some(c), Some(u)]))
    // anchored at the upper end: the remainder runs from `p`'s lower to `q`'s lower
    ensures |q| > 0 && q[0] != q[|q| - 1] && |p| > 0 && p[0] != q[0] && p[|p| - 1] == q[|q| - 1] ==>
      r == (match (q[0], p[0])
            case (None, _) => Err(Overlap)
            case (Some(_), None) => Err(TypeError)
            case (Some(c), Some(l)) => if c < l then Err(Overlap) else Ok([Some(l), Some(c)]))
    ensures |q| > 0 && |p| > 0 && p[0] != q[0] && p[|p| - 1] != q[|q| - 1] ==> r == Err(Overlap)
    ensures r.Ok? ==> |r.value| == 2 && r.value[0].Some? && r.value[1].Some?
    ensures r.Ok? ==> r.value[0].value <= r.value[1].value
  {
    if |q| == 0 then Err(IndexError)
    else if q[0] == q[|q| - 1] then Err(Overlap)
    else
      var a :- FromPayload(p);
      var s :- Subtract(a, Range(q[0], q[|q| - 1]));
      Ok(ToPayload(s))
  }

  /** Subtracting a degenerate operand is refused before the empty first
      operand is read. */
  lemma PayloadSubtractDegenerateFirst()
    ensures PayloadSubtract([], [Some(1), Some(1)]) == Err(Overlap)
    ensures PayloadSubtract([], [Some(1), Some(2)]) == Err(IndexError)
  {
  }

  /** Subtracting an added payload gives back the first one, under the
      conditions of `AddThenSubtract`. */
  lemma PayloadAddThenSubtract(p: seq<Option<int>>, q: seq<Option<int>>)
    requires |p| == 2 && |q| == 2
    requires Valid(Range(p[0], p[1])) && Valid(Range(q[0], q[1]))
    requires DirectionOf(Range(p[0], p[1])) == Center && DirectionOf(Range(q[0], q[1])) != State
    requires PayloadAdd(p, q).Ok?
    ensures PayloadSubtract(PayloadAdd(p, q).value, q) == Ok(p)
  {
    var a := Range(p[0], p[1]);
    var b := Range(q[0], q[1]);
    assert FromPayload(p) == Ok(a) && FromPayload(q) == Ok(b);
    AddThenSubtract(a, b);
    var s := Add(a, b).value;
    assert PayloadAdd(p, q).value == ToPayload(s);
    assert FromPayload(ToPayload(s)) == Ok(s);
    assert ToPayload(a) == p;
  }
}
