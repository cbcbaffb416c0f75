/** The category payload algebra of the registered-kind and decorator
    revisions: a category is a set of labels; `add` demands disjoint
    operands and `subtract` demands that the subtrahend's labels all be
    present.
 */
module CategorySets {
  import opened Outcomes

  type Labels = set<string>

  /** Disjointness-checked union. */
  function Add(a: Labels, b: Labels): (r: Result<Labels>)
    ensures r.Ok? <==> a !! b
    ensures r.Err? ==> r.error == Overlap
    ensures r.Ok? ==> a <= r.value && b <= r.value
    ensures r.Ok? ==> forall x :: x in r.value ==> x in a || x in b
  {
    if exists x :: x in b && x in a then Err(Overlap) else Ok(a + b)
  }

  /** Containment-checked difference. */
  function Subtract(a: Labels, b: Labels): (r: Result<Labels>)
    ensures r.Ok? <==> b <= a
    ensures r.Err? ==> r.error == Overlap
    ensures r.Ok? ==> r.value <= a && r.value !! b
    ensures r.Ok? ==> forall x :: x in a && x !in b ==> x in r.value
  {
    if exists x :: x in b && x !in a then Err(Overlap) else Ok(set x | x in a && x !in b)
  }

  /** The labels a custom variable yields for the attribute `name`: it
      stores them as `value` and has no other attribute. */
  function Attribute(v: Labels, name: string): (r: Result<Labels>)
    ensures r.Ok? <==> name == "value"
    ensures r.Ok? ==> r.value == v
    ensures r.Err? ==> r.error == AttributeError
  {
    if name == "value" then Ok(v) else Err(AttributeError)
  }

  /** `add` with its overlap check reading the attribute `name` of both
      operands; the union itself reads `value`. */
  function AddReading(name: string, a: Labels, b: Labels): (r: Result<Labels>)
  {
    var others :- Attribute(b, name);
    var selves :- Attribute(a, name);
    if exists x :: x in others && x in selves then Err(Overlap) else Ok(a + b)
  }

  /** `subtract` reading the attribute `name` both in its containment
      check and in its difference. */
  function SubtractReading(name: string, a: Labels, b: Labels): (r: Result<Labels>)
  {
    var others :- Attribute(b, name);
    var selves :- Attribute(a, name);
    if exists x :: x in others && x !in selves then Err(Overlap) else Ok(set x | x in selves && x !in others)
  }

  /** The category methods as the registered-kind revision writes them
      read `values`, which a custom variable does not have: every `add`
      and every `subtract` is an `AttributeError`, even where `Add` and
      `Subtract` succeed. */
  lemma AsWrittenAlwaysFails(a: Labels, b: Labels)
    ensures AddReading("values", a, b) == Err(AttributeError)
    ensures SubtractReading("values", a, b) == Err(AttributeError)
  {
  }

  /** Reading `value` instead gives exactly `Add` and `Subtract`. */
  lemma ReadingValueIsCorrected(a: Labels, b: Labels)
    ensures AddReading("value", a, b) == Add(a, b)
    ensures SubtractReading("value", a, b) == Subtract(a, b)
  {
    assert Attribute(a, "value") == Ok(a) && Attribute(b, "value") == Ok(b);
    if !(a !! b) {
      var x :| x in a && x in b;
      assert x in Attribute(b, "value").Extract() && x in Attribute(a, "value").Extract();
    }
  }

  /** A concrete pair of disjoint categories that the written `add`
      refuses and the corrected `Add` joins. */
  lemma AddAsWrittenRefusesDisjoint()
    ensures AddReading("values", {"a"}, {"b"}) == Err(AttributeError)
    ensures Add({"a"}, {"b"}) == Ok({"a", "b"})
  {
    assert "b" !in {"a"};
    assert {"a"} + {"b"} == {"a", "b"};
  }

  /** The size of a sum is the sum of the sizes. */
  lemma AddCardinality(a: Labels, b: Labels)
    requires a !! b
    ensures |Add(a, b).value| == |a| + |b|
  {
    assert Add(a, b).value == a + b;
  }

  /** Adding then subtracting a disjoint category gives back the first one. */
  lemma AddThenSubtract(a: Labels, b: Labels)
    requires a !! b
    ensures Subtract(Add(a, b).value, b) == Ok(a)
  {
    var s := Add(a, b).value;
    assert b <= s;
    assert Subtract(s, b).value == a;
  }

  /** Subtracting then adding back a contained category gives back the first one. */
  lemma SubtractThenAdd(a: Labels, b: Labels)
    requires b <= a
    ensures Add(Subtract(a, b).value, b) == Ok(a)
  {
    var d := Subtract(a, b).value;
    assert d !! b;
    assert Add(d, b).value == a;
  }

  /** The order of the operands of `add` does not matter. */
  lemma AddCommutes(a: Labels, b: Labels)
    ensures Add(a, b) == Add(b, a)
  {
    if a !! b {
      assert Add(a, b).value == Add(b, a).value;
    }
  }
}
