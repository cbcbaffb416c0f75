/** Variable instances: a class and a payload, the `samevariable` guard,
    the guarded comparisons, and the construction rules of custom
    variables.
 */
module Variables {
  import opened Outcomes
  import opened Registry

  /** The class of a variable: a synthesized custom type, which carries a
      spec, or a plain registered class, which does not. */
  datatype Class = CustomClass(t: VarType) | PlainClass(name: string)

  datatype Var<P> = Var(cls: Class, value: P)

  /** `samevariable`: two custom variables must have equal specs; when
      either operand has no spec, the two classes must be the same. */
  function SameVariable(a: Class, b: Class): (r: Result<()>)
    ensures a.CustomClass? && b.CustomClass? ==> (r.Ok? <==> a.t.spec == b.t.spec)
    ensures a.CustomClass? != b.CustomClass? ==> r.Err?
    ensures a.PlainClass? && b.PlainClass? ==> (r.Ok? <==> a.name == b.name)
    ensures r.Err? ==> r.error == TypeError
  {
    if a.CustomClass? && b.CustomClass? then Need(a.t.spec == b.t.spec, TypeError)
    else Need(a == b, TypeError)
  }

  /** The guard is an equivalence: reflexive, symmetric and transitive. */
  lemma SameVariableEquivalence(a: Class, b: Class, c: Class)
    ensures SameVariable(a, a).Ok?
    ensures SameVariable(a, b) == SameVariable(b, a)
    ensures SameVariable(a, b).Ok? && SameVariable(b, c).Ok? ==> SameVariable(a, c).Ok?
  {
  }

  datatype Comparison = Equal | NotEqual | Less | Greater | AtMost | AtLeast

  /** `==`, `!=`, `<`, `>`, `<=`, `>=` on numeric payloads, after the
      guard; `!=` negates `==` and so inherits its guard. */
  function Compare(a: Var<int>, b: Var<int>, op: Comparison): (r: Result<bool>)
    ensures r.Ok? <==> SameVariable(a.cls, b.cls).Ok?
    ensures r.Err? ==> r.error == TypeError
  {
    var _ :- SameVariable(a.cls, b.cls);
    var equal := a.value == b.value;
    match op
    case Equal => Ok(equal)
    case NotEqual => Ok(!equal)
    case Less => Ok(a.value < b.value)
    case Greater => Ok(a.value > b.value)
    case AtMost => Ok(a.value <= b.value)
    case AtLeast => Ok(a.value >= b.value)
  }

  /** Past the guard the six comparisons agree with each other the way an
      order does, swapping the operands swaps `<` and `>`, and `==` and `<`
      are the payloads' own equality and order. */
  lemma CompareConsistent(a: Var<int>, b: Var<int>)
    requires SameVariable(a.cls, b.cls).Ok?
    ensures Compare(a, b, NotEqual).value == !Compare(a, b, Equal).value
    ensures Compare(a, b, AtMost).value == (Compare(a, b, Less).value || Compare(a, b, Equal).value)
    ensures Compare(a, b, AtLeast).value == (Compare(a, b, Greater).value || Compare(a, b, Equal).value)
    ensures Compare(a, b, Less) == Compare(b, a, Greater)
    ensures Compare(a, b, Equal) == Compare(b, a, Equal)
    ensures Compare(a, b, Equal).value <==> a.value == b.value
    ensures Compare(a, b, Less).value <==> a.value < b.value
  {
    SameVariableEquivalence(a.cls, b.cls, b.cls);
  }

  /** Comparing variables of different specs is refused whatever the payloads. */
  lemma DifferentSpecsRefused(t: VarType, u: VarType, x: int, y: int, op: Comparison)
    requires t.spec != u.spec
    ensures Compare(Var(CustomClass(t), x), Var(CustomClass(u), y), op) == Err(TypeError)
  {
  }

  /** What a constructor call is made on: the custom variable base class,
      a registered kind that has not been given a spec, or a synthesized
      custom type. */
  datatype Target = BaseClass | KindClass(kind: Kind) | CustomType(t: VarType)

  /** `CustomVariable.__new__` then `__init__`: only a synthesized type can
      be instantiated, and only with a payload its spec's check accepts. */
  function New<P>(target: Target, value: P, check: (Spec, P) -> bool): (r: Result<Var<P>>)
    ensures r.Ok? <==> target.CustomType? && check(target.t.spec, value)
    ensures !target.CustomType? ==> r == Err(NotCreated)
    ensures target.CustomType? && !check(target.t.spec, value) ==> r == Err(Validation)
    ensures r.Ok? ==> r.value.cls == CustomClass(target.t) && r.value.value == value
  {
    match target
    case BaseClass => Err(NotCreated)
    case KindClass(_) => Err(NotCreated)
    case CustomType(t) =>
      if check(t.spec, value) then Ok(Var(CustomClass(t), value)) else Err(Validation)
  }
}
