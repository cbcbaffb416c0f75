/** Operations of the registered custom kinds (`category`, `num`,
    `range`): each computes a payload from the two operands, obtains the
    result type from the registry through the spec's derivation, and
    instantiates that type with the payload.
 */
module Custom {
  import opened Outcomes
  import opened Registry
  import opened Variables
  import Ranges
  import CategorySets

  /** The payload of each kind: a label set, a number, or a bounds list. */
  datatype Payload = Labels(labels: set<string>) | Number(n: int) | Bounds(bounds: seq<Option<int>>)

  datatype Op = Add | Subtract | Multiply

  function MethodName(op: Op): string
  {
    match op
    case Add => "add"
    case Subtract => "subtract"
    case Multiply => "multiply"
  }

  predicate SameKind(p: Payload, q: Payload)
  {
    (p.Labels? && q.Labels?) || (p.Number? && q.Number?) || (p.Bounds? && q.Bounds?)
  }

  /** The payload a kind's method computes: disjoint union and contained
      difference of labels; sum, difference and product of numbers; the
      adjacency and anchored rules of ranges. A kind without the method
      raises `AttributeError`. */
  function Combine(op: Op, p: Payload, q: Payload): (r: Result<Payload>)
    requires SameKind(p, q)
    ensures p.Labels? && op == Add ==> (r.Ok? <==> p.labels !! q.labels)
    ensures p.Labels? && op == Subtract ==> (r.Ok? <==> q.labels <= p.labels)
    ensures p.Labels? && op != Multiply && r.Err? ==> r.error == Overlap
    ensures p.Labels? && r.Ok? ==> (r.value.Labels? &&
      forall x :: x in r.value.labels <==> if op == Add then x in p.labels || x in q.labels
                                          else x in p.labels && x !in q.labels)
    ensures p.Number? && op == Add ==> r.Ok? && r.value.Number? && r.value.n - q.n == p.n
    ensures p.Number? && op == Subtract ==> r.Ok? && r.value.Number? && r.value.n + q.n == p.n
    ensures p.Number? && op == Multiply ==> r.Ok? && r.value.Number? && r.value.n == p.n * q.n
    ensures p.Bounds? && op != Multiply && r.Ok? ==> r.value.Bounds? && |r.value.bounds| == 2
    ensures p.Bounds? && op == Add && |p.bounds| > 0 && |q.bounds| > 0 ==>
      var s := Ranges.Add(Ranges.FromPayload(p.bounds).value, Ranges.FromPayload(q.bounds).value);
      (r.Ok? <==> s.Ok?) && (r.Ok? ==> Ranges.FromPayload(r.value.bounds) == s)
    ensures p.Bounds? && op == Subtract && |p.bounds| > 0 && |q.bounds| > 0 ==>
      var s := Ranges.Subtract(Ranges.FromPayload(p.bounds).value, Ranges.FromPayload(q.bounds).value);
      (r.Ok? <==> s.Ok?) && (r.Ok? ==> Ranges.FromPayload(r.value.bounds) == s)
    ensures !p.Number? && op == Multiply ==> r == Err(AttributeError)
  {
    match (p, q)
    case (Labels(a), Labels(b)) =>
      if op == Multiply then Err(AttributeError)
      else
        var s :- if op == Add then CategorySets.Add(a, b) else CategorySets.Subtract(a, b);
        Ok(Labels(s))
    case (Number(x), Number(y)) =>
      Ok(Number(match op case Add => x + y case Subtract => x - y case Multiply => x * y))
    case (Bounds(a), Bounds(b)) =>
      if op == Multiply then Err(AttributeError)
      else
        var s :- if op == Add then Ranges.PayloadAdd(a, b) else Ranges.PayloadSubtract(a, b);
        Ok(Bounds(s))
  }

  /** Adding a disjoint label set or a number and then subtracting it
      gives the original payload back. */
  lemma CombineAddThenSubtract(p: Payload, q: Payload)
    requires (p.Labels? && q.Labels? && p.labels !! q.labels) || (p.Number? && q.Number?)
    ensures Combine(Add, p, q).Ok?
    ensures Combine(Subtract, Combine(Add, p, q).value, q) == Ok(p)
  {
    if p.Labels? {
      CategorySets.AddThenSubtract(p.labels, q.labels);
    }
  }

  /** A method of a custom kind: the payload first, then the result type
      from the registry for the spec the operand specs derive, then the
      new variable, which the result spec's check must accept. It
      succeeds exactly when all three do, and otherwise reports the first
      failure: the payload's error, `KeyError` from the registry, or
      `Validation` from the check. */
  function Apply(st: State, op: Op, a: Var<Payload>, b: Var<Payload>,
                 derive: (Spec, Spec, string) -> Spec, check: (Spec, Payload) -> bool): (r: Result<(State, Var<Payload>)>)
    requires a.cls.CustomClass? && b.cls.CustomClass? && SameKind(a.value, b.value)
    ensures Combine(op, a.value, b.value).Err? ==> r == Err(Combine(op, a.value, b.value).error)
    ensures r.Ok? ==> Combine(op, a.value, b.value) == Ok(r.value.1.value)
    ensures r.Ok? ==>
      var s := derive(a.cls.t.spec, b.cls.t.spec, MethodName(op));
      s.jsonstr in r.value.0.cache && r.value.1.cls == CustomClass(r.value.0.cache[s.jsonstr])
    ensures r.Ok? ==> check(r.value.1.cls.t.spec, r.value.1.value)
    ensures Combine(op, a.value, b.value).Ok? ==>
      var o := Operation(st, a.cls.t, b.cls.t, MethodName(op), derive);
      (o.Err? ==> r == Err(KeyError)) &&
      (o.Ok? ==> (r.Ok? <==> check(o.value.1.spec, Combine(op, a.value, b.value).value))) &&
      (o.Ok? && !check(o.value.1.spec, Combine(op, a.value, b.value).value) ==> r == Err(Validation)) &&
      (r.Ok? ==> o.Ok? && r.value.0 == o.value.0 && r.value.1.cls == CustomClass(o.value.1))
  {
    var payload :- Combine(op, a.value, b.value);
    var (st1, t) :- Operation(st, a.cls.t, b.cls.t, MethodName(op), derive);
    var v :- New(CustomType(t), payload, check);
    Ok((st1, v))
  }

  /** The result class depends only on the operation and the operand
      specs: applying it again to operands of the same classes yields a
      variable of the identical type. */
  lemma ApplySameClasses(st: State, op: Op, a: Var<Payload>, b: Var<Payload>, a2: Var<Payload>, b2: Var<Payload>,
                         derive: (Spec, Spec, string) -> Spec, check: (Spec, Payload) -> bool)
    requires a.cls.CustomClass? && b.cls.CustomClass? && SameKind(a.value, b.value)
    requires a2.cls == a.cls && b2.cls == b.cls && SameKind(a2.value, b2.value)
    requires Apply(st, op, a, b, derive, check).Ok?
    requires Apply(Apply(st, op, a, b, derive, check).value.0, op, a2, b2, derive, check).Ok?
    ensures Apply(Apply(st, op, a, b, derive, check).value.0, op, a2, b2, derive, check).value.1.cls ==
            Apply(st, op, a, b, derive, check).value.1.cls
  {
    var st1 := Apply(st, op, a, b, derive, check).value.0;
    OperationStable(st, a.cls.t, b.cls.t, MethodName(op), derive);
  }

  /** The methods as the registered-kind revision writes them. The
      category methods read `self.values`, which a custom variable does
      not have. The others call `self.operation('add', other, ...)`,
      which binds the method name to `other` and leaves the keyword-only
      `method` unset, a `TypeError`; the range methods get there only
      after their payload checks. `multiply` exists on numbers only. */
  function ApplyAsWritten(op: Op, a: Var<Payload>, b: Var<Payload>): (r: Result<Var<Payload>>)
    requires SameKind(a.value, b.value)
    ensures r.Err?
    ensures a.value.Labels? ==> r == Err(AttributeError)
    ensures a.value.Number? ==> r == Err(TypeError)
    ensures a.value.Bounds? && Combine(op, a.value, b.value).Ok? ==> r == Err(TypeError)
  {
    match a.value
    case Labels(_) => Err(AttributeError)
    case Number(_) => Err(TypeError)
    case Bounds(_) =>
      var _ :- Combine(op, a.value, b.value);
      Err(TypeError)
  }
}
