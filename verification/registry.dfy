/** The variable-type registry: kinds registered under lower-cased datatype
    names, and the cache that synthesizes one custom variable type per
    spec (keyed by the spec's JSON text) and hands back that same type on
    every later request.

    A Python class is identified by object identity; here a synthesized
    type carries the serial number `id` it was created with, so "the
    identical type" is equality of `VarType` values with the same `id`.
 */
module Registry {
  import opened Outcomes

  /** The parts of a spec the registry reads. The spec's checks and its
      derivation of result specs live outside this model and are passed
      in as functions where they are used. */
  datatype Spec = Spec(jsonstr: string, dataType: string, dataname: string)

  /** A registered kind: the class name and the lower-cased datatype it
      was registered under. */
  datatype Kind = Kind(name: string, dataType: string)

  /** A synthesized custom variable type: `dataname_KindName`, derived from
      the kind, carrying its spec. */
  datatype VarType = VarType(id: nat, name: string, base: Kind, spec: Spec)

  type Kinds = map<string, Kind>

  datatype State = State(kinds: Kinds, cache: map<string, VarType>, next: nat)

  // ------------------------------------------------------------ kinds

  function LowerChar(c: char): (r: char)
    ensures 'A' <= c <= 'Z' ==> 'a' <= r <= 'z' && r as int == c as int + 32
    ensures !('A' <= c <= 'Z') ==> r == c
  {
    if 'A' <= c <= 'Z' then (c as int + 32) as char else c
  }

  /** `str.lower` on ASCII letters. */
  function Lower(s: string): (r: string)
    ensures |r| == |s|
    ensures forall i :: 0 <= i < |s| ==> r[i] == LowerChar(s[i])
  {
    seq(|s|, i requires 0 <= i < |s| => LowerChar(s[i]))
  }

  lemma LowerIdempotent(s: string)
    ensures Lower(Lower(s)) == Lower(s)
  {
  }

  /** `getsubclass`: look the kind up under the lower-cased name. */
  function GetSubclass(kinds: Kinds, dataType: string): (r: Result<Kind>)
    ensures r.Ok? <==> Lower(dataType) in kinds
    ensures r.Ok? ==> r.value == kinds[Lower(dataType)]
    ensures r.Err? ==> r.error == KeyError
  {
    if Lower(dataType) in kinds then Ok(kinds[Lower(dataType)]) else Err(KeyError)
  }

  /** `register`: store the kind under the lower-cased name, replacing
      whatever was registered under it before. */
  function Register(kinds: Kinds, dataType: string, name: string): (r: Kinds)
    ensures r.Keys == kinds.Keys + {Lower(dataType)}
    ensures r[Lower(dataType)] == Kind(name, Lower(dataType))
    ensures forall d :: d in kinds && d != Lower(dataType) ==> r[d] == kinds[d]
  {
    kinds[Lower(dataType) := Kind(name, Lower(dataType))]
  }

  /** After registering, any spelling of the datatype that lowers to the
      same name finds the new kind; other names are unaffected. */
  lemma RegisterThenGet(kinds: Kinds, dataType: string, name: string, asked: string)
    ensures Lower(asked) == Lower(dataType) ==>
      GetSubclass(Register(kinds, dataType, name), asked) == Ok(Kind(name, Lower(dataType)))
    ensures Lower(asked) != Lower(dataType) ==>
      GetSubclass(Register(kinds, dataType, name), asked) == GetSubclass(kinds, asked)
  {
  }

  /** A second registration under the same name wins over the first. */
  lemma RegisterOverwrites(kinds: Kinds, dataType: string, first: string, second: string)
    ensures Register(Register(kinds, dataType, first), dataType, second) == Register(kinds, dataType, second)
  {
  }

  // ------------------------------------------------------------ the cache

  /** The cache invariant: each entry is filed under its own spec's JSON
      text, and distinct entries are distinct types created before `next`. */
  predicate Valid(st: State)
  {
    (forall j :: j in st.cache ==> st.cache[j].spec.jsonstr == j && st.cache[j].id < st.next) &&
    (forall j, k :: j in st.cache && k in st.cache && j != k ==> st.cache[j].id != st.cache[k].id)
  }

  /** `create_customvariable`: on a cache hit the cached type; on a miss
      the kind named by the spec's datatype (a `KeyError` when it is not
      registered), a new type derived from it, filed in the cache. */
  function CreateCustomVariable(st: State, spec: Spec): (r: Result<(State, VarType)>)
    ensures spec.jsonstr in st.cache ==> r == Ok((st, st.cache[spec.jsonstr]))
    ensures spec.jsonstr !in st.cache ==> (r.Ok? <==> Lower(spec.dataType) in st.kinds)
    ensures r.Err? ==> r.error == KeyError
    ensures r.Ok? ==> r.value.0.kinds == st.kinds
    ensures r.Ok? ==> spec.jsonstr in r.value.0.cache && r.value.0.cache[spec.jsonstr] == r.value.1
    ensures r.Ok? ==> r.value.0.cache.Keys == st.cache.Keys + {spec.jsonstr}
    ensures r.Ok? ==> forall j :: j in st.cache ==> r.value.0.cache[j] == st.cache[j]
    ensures r.Ok? && spec.jsonstr !in st.cache ==>
      r.value.1.spec == spec && r.value.1.base == st.kinds[Lower(spec.dataType)] &&
      r.value.1.name == spec.dataname + "_" + r.value.1.base.name
    ensures r.Ok? && Valid(st) ==> Valid(r.value.0) && r.value.1.spec.jsonstr == spec.jsonstr
  {
    if spec.jsonstr in st.cache then Ok((st, st.cache[spec.jsonstr]))
    else
      var base :- GetSubclass(st.kinds, spec.dataType);
      var t := VarType(st.next, spec.dataname + "_" + base.name, base, spec);
      Ok((State(st.kinds, st.cache[spec.jsonstr := t], st.next + 1), t))
  }

  /** Asking again with a spec of the same JSON text returns the identical
      type and leaves the registry as it was. */
  lemma SameJsonSameType(st: State, s: Spec, s2: Spec)
    requires CreateCustomVariable(st, s).Ok?
    requires s2.jsonstr == s.jsonstr
    ensures var (st1, t1) := CreateCustomVariable(st, s).value;
            CreateCustomVariable(st1, s2) == Ok((st1, t1))
  {
  }

  /** Specs with different JSON text get different types. */
  lemma DistinctJsonDistinctTypes(st: State, s1: Spec, s2: Spec)
    requires Valid(st) && s1.jsonstr != s2.jsonstr
    requires CreateCustomVariable(st, s1).Ok?
    requires CreateCustomVariable(CreateCustomVariable(st, s1).value.0, s2).Ok?
    ensures CreateCustomVariable(st, s1).value.1 != CreateCustomVariable(CreateCustomVariable(st, s1).value.0, s2).value.1
  {
    var (st1, t1) := CreateCustomVariable(st, s1).value;
    var (st2, t2) := CreateCustomVariable(st1, s2).value;
    assert st2.cache[s1.jsonstr] == t1;
    assert t1.id != t2.id;
  }

  /** A miss for a datatype that was never registered fails at the kind lookup. */
  lemma UnregisteredMissFails(st: State, s: Spec)
    requires s.jsonstr !in st.cache && Lower(s.dataType) !in st.kinds
    ensures CreateCustomVariable(st, s) == Err(KeyError)
  {
  }

  // ------------------------------------------------------------ derived types

  /** `operation`: the result type of a binary operation is the custom
      variable type of the spec that `derive` (the spec's own derivation
      for the named method) yields from the two operand specs. */
  function Operation(st: State, self: VarType, other: VarType, rule: string,
                     derive: (Spec, Spec, string) -> Spec): (r: Result<(State, VarType)>)
    ensures var s := derive(self.spec, other.spec, rule);
            r.Ok? ==> s.jsonstr in r.value.0.cache && r.value.0.cache[s.jsonstr] == r.value.1
    ensures var s := derive(self.spec, other.spec, rule);
            s.jsonstr in st.cache ==> r == Ok((st, st.cache[s.jsonstr]))
    ensures r.Err? ==> r.error == KeyError
  {
    CreateCustomVariable(st, derive(self.spec, other.spec, rule))
  }

  /** `transformation`: the same for a unary rule that also takes `how`. */
  function Transformation(st: State, self: VarType, rule: string, how: string,
                          derive: (Spec, string, string) -> Spec): (r: Result<(State, VarType)>)
    ensures var s := derive(self.spec, rule, how);
            r.Ok? ==> s.jsonstr in r.value.0.cache && r.value.0.cache[s.jsonstr] == r.value.1
    ensures var s := derive(self.spec, rule, how);
            s.jsonstr in st.cache ==> r == Ok((st, st.cache[s.jsonstr]))
    ensures r.Err? ==> r.error == KeyError
  {
    CreateCustomVariable(st, derive(self.spec, rule, how))
  }

  /** Repeating an operation on the same operand types yields the same
      result type and does not change the registry. */
  lemma OperationStable(st: State, self: VarType, other: VarType, rule: string,
                        derive: (Spec, Spec, string) -> Spec)
    requires Operation(st, self, other, rule, derive).Ok?
    ensures var (st1, t1) := Operation(st, self, other, rule, derive).value;
            Operation(st1, self, other, rule, derive) == Ok((st1, t1))
  {
  }
}
