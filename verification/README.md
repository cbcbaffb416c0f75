# variables — a Dafny model of the value algebra

The `variables` package wraps raw values in typed *variables* and defines
their algebra. This project models that algebra in Dafny and proves what it
promises:

- **Ranges.** A range is a pair of optional bounds. It has a direction
  (`unbounded`, `lower`, `upper`, `state`, `center`).
  - `add` joins two ranges that meet at a present bound.
  - `subtract` removes a range anchored at one end.
  - `cumulate` picks the one present bound.
  - `average` weighs the two bounds.
  - A text form reads ranges and numbers back: `>`, `<` and `...` headings, and the number scanner `_numfromstr`.
- **Categories.** `add` requires the label collections to be disjoint. `subtract` requires the removed labels to be contained. There are two versions:
  - a set version (the registered custom kinds);
  - an ordered-list version (`types.py`), which has a `" & "` text form.
- **Geography and Geopath.** These are ordered `key=value` segment paths with:
  - Python indexing and slicing, equality, and a `|`-separated text form;
  - zero-padded `geoid` codes built from a key→width table, ordered as strings;
  - a `*` wildcard, prefix `contains`, and an `add` that rolls the last segment up to `*`.
- **The variable-type registry.**
  - Kinds are registered under lower-cased datatype names.
  - One custom type is synthesized per spec, keyed by the spec's JSON text, and returned again on every later request.
  - The `samevariable` guard protects comparisons.
  - Binary operations obtain their result type from the spec the operand specs derive.
- **Array helpers.** `reduce`-based `summation`, `minimum` and `maximum`, running sums in both directions, weighted averages and element-wise calls.

Errors are values: every operation returns `Outcomes.Result`, and the
exception the code raises becomes an `Outcomes.Error` kind:

| Error kind | Exception it stands for |
|---|---|
| `Overlap` | the `…OverlapError` classes |
| `OperationError` | `RangeOperationError` and `VariableOperationError` |
| `NotCreated` | `VariableNotCreatedError` |
| `Validation` | a spec's `checkval` refusing a value |
| the other kinds | the built-in exception of the same name |

The modules follow the source files:

| Module | Models |
|---|---|
| `Ranges`, `Nums`, `RangeText` | `nums.py`, plus the range bodies of `custom.py` and `__init__.py` |
| `CategorySets` | the category bodies of `custom.py` and `__init__.py` |
| `CategoryLists` | `types.py` |
| `Paths` | `geopath.py`, and the parts of `geography.py` that are textually the same |
| `Geography` | `geography.py` |
| `Registry`, `Variables` | `variable.py` |
| `Custom` | the dispatch of `custom.py` |
| `Folds`, `Arrays`, `Varrays` | `arrays.py` and `varrays.py` |

`Outcomes` and `Text` hold shared support: the result type, and Python's `str.split` and `str.join`.

Where the code's behaviour is evidently not what was intended, the model keeps an as-written member with a lemma that exhibits the gap. The rest of the model uses the corrected member. See "## Findings".

The direction names of running sums conflict between the two array modules:
- In `arrays.py`, `cumulate(direction='upper')` sums from the front.
- In `varrays.py`, `direction='lower'` sums from the front.

The model follows each file as written, and `Varrays.DirectionsSwapped` states the swap.

## Model

| member | source | states |
|---|---|---|
| Ranges.DirectionOf | nums.py:87-93 | Exactly one direction, each named by its bound pattern: both absent is unbounded, only the lower absent is lower, only the upper absent is upper, equal present bounds is state, different present bounds is center |
| Ranges.Add | nums.py:103-108 | `add` succeeds exactly when one of the two adjacencies holds at a present junction bound. When `self.lower` meets `other.upper` the result is `[other.lower, self.upper]`, and that branch wins when both hold. Otherwise it is `[self.lower, other.upper]`. Anything else is an overlap error |
| Ranges.AddTakesOneBoundFromEach | custom.py:62-66 | A successful `add` takes its lower bound from one operand and its upper bound from the other |
| Ranges.AddOpenJunctionFails | nums.py:105-107 | An absent junction bound never counts as adjacent, even when the other junction bound is absent too |
| Ranges.AddPreservesValid | __init__.py:72-77 | Adding two ordered ranges gives an ordered range that covers both operands |
| Ranges.AddCommutesOnValid | nums.py:103-108 | On ordered ranges the branch priority never matters: `a + b == b + a`, including which error |
| Ranges.Subtract | nums.py:110-124 | A degenerate `other` (equal bounds, including both absent) is refused. Sharing neither end is refused. A success keeps the part of `self` beyond `other`: `[other.upper, self.upper]` when the lower ends agree, `[self.lower, other.lower]` when only the upper ends agree. The result is bounded and ordered |
| Ranges.SubtractLeftAnchored | nums.py:113-117 | `[a,u] - [a,c]` is `[c,u]` for `c <= u`. It is an overlap for `c > u` or an absent `c` |
| Ranges.SubtractRightAnchored | nums.py:118-123 | `[l,b] - [c,b]` is `[l,c]` for `c >= l`. It is an overlap for `c < l` or an absent `c` |
| Ranges.AddThenSubtract | custom.py:62-81 | Extending a center range by an adjacent non-degenerate range and then subtracting that range gives the original back |
| Ranges.SubtractThenAdd | __init__.py:79-93 | Adding back what was subtracted restores the original range |
| Ranges.CumulateBy | __init__.py:104-107 | The spec's direction `lower` yields the upper bound and `upper` yields the lower bound. Any other direction is an operation error |
| Ranges.Cumulate | nums.py:131-134 | Only a half-open range cumulates, and the result is its one present bound |
| Ranges.Average | nums.py:126-129 | A weight outside [0,1] fails the assertion. Only center and state ranges average. A bounded one yields `w * lower + (1 - w) * upper`, and a missing bound is a `TypeError` in the arithmetic. The result lies between the bounds of an ordered range, and is the lower bound at weight 1 and the upper bound at weight 0 |
| Ranges.AverageAtDefault | nums.py:126 | At the default weight 0.5 the average is the midpoint of the bounds |
| Ranges.AverageAsWritten | __init__.py:98-102 | The guard as written refuses every range, so `average` never returns a value |
| Ranges.AverageGuardAlwaysRefuses | nums.py:128 | The written guard refuses even ordered bounded ranges with a valid weight, which the corrected guard accepts |
| Ranges.FromPayload | __init__.py:67-70 | `lower` and `upper` are the first and last payload elements. An empty payload raises `IndexError` |
| Ranges.PayloadRoundTrip | custom.py:56-59 | A range written as a two-element payload reads back as the same range |
| Ranges.PayloadAdd | custom.py:62-66 | The payload form of `add`. An empty payload is an `IndexError`. When `other` ends where `self` starts, the result is `[other.lower, self.upper]`. Only otherwise, when `self` ends where `other` starts, is it `[self.lower, other.upper]`. Meeting at no present bound is an overlap |
| Ranges.PayloadAddThenSubtract | custom.py:62-81 | On two-element payloads, subtracting an added non-degenerate payload from a center payload gives the first payload back |
| Ranges.PayloadSubtract | custom.py:68-81 | The payload form of `subtract`. `other` is read first: when empty it is an `IndexError`, and when degenerate an overlap, whatever `self` holds. Anchored at the lower end, the remainder is `[other.upper, self.upper]` when `other.upper <= self.upper`. Anchored at the upper end, it is `[self.lower, other.lower]` when `other.lower >= self.lower`. A missing `other` bound is an overlap, a missing `self` bound a `TypeError`, and no shared end an overlap |
| Ranges.PayloadSubtractDegenerateFirst | custom.py:69 | An empty `self` minus a degenerate `other` is an overlap, and an empty `self` minus a proper `other` an `IndexError` |
| Nums.SameType | nums.py:30-34 | The `sametype` guard lets an operation through exactly when both operands have the same class, and raises `TypeError` otherwise |
| Nums.NumAddAsWritten | nums.py:52-53 | The `value` property returns itself, so every `Num` operation recurses without end |
| Nums.NumAdd | nums.py:59-60 | With the property reading the stored value, `add` is defined exactly for two numbers and yields their sum |
| Nums.NumSubtract | nums.py:61-62 | `subtract` is defined exactly for two numbers and yields their difference |
| Nums.NumAddThenSubtract | nums.py:59-62 | Adding a number and then subtracting it gives the original back |
| Nums.RangeAdd | nums.py:103-104 | A range plus a non-range is a `TypeError` before any adjacency check; otherwise it is `Ranges.Add` |
| Nums.RangeSubtract | nums.py:110-111 | A range minus a non-range is a `TypeError` before any anchoring check; otherwise it is `Ranges.Subtract` |
| RangeText.FromStrWith | nums.py:136-144 | With a `>` heading, exactly one number reads as `[n, None]`. Otherwise, with a `<` heading, exactly one number reads as `[None, n]`. Otherwise `...` reads as unbounded. Without a heading, one number is both bounds, two are lower and upper, and more fail the assertion. A scanner error propagates |
| RangeText.ReadStr | nums.py:136-144 | Reading back the text of any range reproduces each present bound as the scanner reads its digits, and each absent bound as absent |
| RangeText.RoundTrip | nums.py:99 | `fromstr(str(r)) == r` for every range whose bounds are non-negative, with integers read exactly: the `>`, `<` and `...` headings included |
| RangeText.NegativeBoundLosesSign | nums.py:23 | The integer alternative of the pattern has no sign, so a negative bound reads back as its absolute value |
| RangeText.SignedRoundTrip | nums.py:22-27 | With a sign allowed on integers, every range round-trips through its text |
| RangeText.ReadUnbounded | nums.py:141 | The text `...` reads back as the unbounded range |
| RangeText.ReadLowerOpen | nums.py:140 | `<u` reads back as the range with no lower bound and upper bound `u` |
| RangeText.ReadUpperOpen | nums.py:139 | `>l` reads back as the range with lower bound `l` and no upper bound |
| RangeText.ReadBounded | nums.py:143-144 | `l - u` reads back as the two bounds in order |
| RangeText.ReadBack | nums.py:136-144 | Tokens that each convert to a value read as the range the heading selects. A single number without a heading is both bounds |
| RangeText.SingleNumberIsBothBounds | nums.py:142 | The text of one non-negative integer reads as the range with that number as both bounds |
| RangeText.ThreeNumbersRefused | nums.py:142-143 | Three or more numbers without a heading fail the length assertion |
| RangeText.FixInt | nums.py:20 | An integer token converts to that integer, read exactly rather than through `float` |
| RangeText.NumFromStr | nums.py:64-69 | A number is read exactly when the scanner finds one integer token, and then it is that token's value. Any other count is an assertion failure |
| RangeText.NumRoundTrip | nums.py:64-69 | The decimal text of a natural number reads back as that number, with integers read exactly |
| CategorySets.Add | __init__.py:42-44 | Corrected to read `value` (see "## Findings"): `add` succeeds exactly for disjoint label sets. The result is their union, and a shared label is an overlap |
| CategorySets.Subtract | __init__.py:46-48 | Corrected to read `value` (see "## Findings"): `subtract` succeeds exactly when every removed label is present. The result is the labels of `self` that are not removed |
| CategorySets.AsWrittenAlwaysFails | __init__.py:42-48 | As written, `add` and `subtract` read `values`, which a custom variable does not have, so both always raise `AttributeError` |
| CategorySets.ReadingValueIsCorrected | __init__.py:42-48 | With `value` read in place of `values`, the two methods are exactly `CategorySets.Add` and `CategorySets.Subtract` |
| CategorySets.AddAsWrittenRefusesDisjoint | __init__.py:43 | `{'a'} + {'b'}` raises `AttributeError` as written, while the corrected `add` gives `{'a', 'b'}` |
| CategorySets.AddCardinality | __init__.py:44 | The union of disjoint label sets has as many labels as the two together |
| CategorySets.AddThenSubtract | custom.py:26-32 | For disjoint A and B, adding B and then subtracting B gives A back |
| CategorySets.SubtractThenAdd | __init__.py:42-48 | Subtracting contained labels and adding them back gives the original set |
| CategorySets.AddCommutes | custom.py:26-28 | `a + b == b + a`, including the overlap error |
| CategoryLists.New | types.py:36-38 | The constructor accepts exactly the label lists without duplicates and keeps their order |
| CategoryLists.AddAsWritten | types.py:44-47 | As written, `add` never succeeds: a different class is a `TypeError`, shared labels an overlap, and otherwise the missing `value` attribute an `AttributeError` |
| CategoryLists.Add | types.py:46-47 | A different class is a `TypeError` and shared labels are an overlap. A success is `self`'s labels followed by `other`'s, without duplicates. Valid disjoint operands always succeed |
| CategoryLists.Without | types.py:51 | The kept labels are exactly those of the list that are not removed |
| CategoryLists.WithoutIsSubsequence | types.py:51 | The kept labels keep their original order: they form a subsequence |
| CategoryLists.WithoutNoDuplicates | types.py:51 | Filtering a list without duplicates leaves a list without duplicates |
| CategoryLists.SubtractAsWritten | types.py:48-51 | As written, `subtract` never succeeds: once the containment check passes, the filtered list is passed as one unhashable label, a `TypeError` |
| CategoryLists.Subtract | types.py:50-51 | A removed label missing from `self` is an overlap. A success keeps exactly `self`'s other labels, in their original order. Contained removals from a valid category always succeed |
| CategoryLists.AddThenSubtract | types.py:44-51 | Adding a disjoint category and then subtracting it gives the original labels back, in order |
| CategoryLists.WithoutAppended | types.py:47-51 | Removing the appended labels from `a + b` leaves exactly `a` when `a` and `b` share none |
| CategoryLists.FromStr | types.py:53-55 | `fromstr` always yields at least one label, because splitting text yields at least one part |
| CategoryLists.RoundTrip | types.py:40 | `fromstr(str(c)) == c` for a non-empty category without duplicate labels, when no label contains `&` |
| CategoryLists.TrailingAmpersandSplitsElsewhere | types.py:54-55 | A label ending in ` &` does not round-trip: `["a &", "b"]` reads back as `["a", "& b"]` |
| Paths.Lookup | geopath.py:40 | Lookup by key finds a value exactly when the key is present, and that value is paired with the key in the path |
| Paths.Put | geopath.py:28 | Storing a new key appends the segment. Storing a present key keeps the key order. Distinct keys stay distinct |
| Paths.FromPairs | geopath.py:28 | Building from pairs always yields distinct keys |
| Paths.FromDistinctPairs | geopath.py:28 | Pairs with distinct keys are kept exactly, in order |
| Paths.DuplicateKeyOverwrites | geopath.py:28 | A repeated key keeps its first position and takes its last value |
| Paths.Len | geopath.py:42 | `len` is the number of keys and the number of values |
| Paths.Position | geopath.py:36 | A Python index is valid exactly in `-n..n-1`. Negative indexes count from the end, and anything else is an `IndexError` |
| Paths.GetKey | geopath.py:36 | `getkey(i)` is the key at the Python position `i`, or an `IndexError` |
| Paths.GetValue | geopath.py:37-40 | An integer index gives the value at that position. A string index gives the value stored under that key, or a `KeyError`. Any other index is a `TypeError` |
| Paths.Slice | geopath.py:50 | `p[a:b]` with `0 <= a <= b <= len(p)` is the segments `a..b-1` in order. Negative bounds count from the end, and an omitted bound means the start or the end. In general the run starts at the clamped start and is empty unless the clamped stop lies past it |
| Paths.SliceAll | geopath.py:50 | The full slice is the whole path |
| Paths.SliceDistinct | geopath.py:50 | A slice of a path with distinct keys has distinct keys |
| Paths.GetItem | geopath.py:47-51 | A string key gives the single segment under that key, or a `KeyError`. An integer gives the single segment at that position, or an `IndexError`. A slice gives the sub-path. Any other index is a `TypeError` |
| Paths.Eq | geopath.py:53-56 | Comparing with another class is a `TypeError`. Otherwise equality holds exactly when keys and values agree in order |
| Paths.ParsePair | geopath.py:60 | An item parses exactly when it splits on `=` into two parts, and is a `ValueError` otherwise |
| Paths.FromStr | geopath.py:58-60 | `fromstr` succeeds exactly when every `|`-separated item parses, and its result has distinct keys |
| Paths.RoundTrip | geopath.py:43 | `fromstr(str(p)) == p` for a non-empty path with distinct keys when no key or value contains `|` or `=` |
| Paths.EmptyDoesNotRoundTrip | geopath.py:58-60 | The empty path's text is the empty string, which does not parse back |
| Geography.ZFill | geography.py:39 | `zfill` leaves text at least `width` long unchanged, and otherwise pads it to exactly `width`. Unsigned text ends up at the end, after the zeros |
| Geography.ZFillKeepsNumber | geography.py:39 | Zero-padding a digit string keeps its numeric value |
| Geography.GeoNum | geography.py:38-39 | A segment's code needs the key's width, and its absence is a `KeyError`. The wildcard is `width` copies of `X`. A value at least as long as the width is unchanged. A shorter unsigned value is `width - len(value)` zeros followed by the value, and a shorter signed value keeps its sign in front of the zeros |
| Geography.Geoid | geography.py:57-58 | `geoid` exists exactly when every key has a width |
| Geography.GeoidIsJoin | geography.py:58 | `geoid` is `''.join` of the segment codes in path order |
| Geography.GeoidSingle | geography.py:58 | A one-segment geography's `geoid` is that segment's code |
| Geography.GeoidAppend | geography.py:58 | The `geoid` of two paths one after the other is their two `geoid`s concatenated, and exists exactly when both do |
| Geography.GeoidStateCounty | geography.py:39-58 | State `48` at width 2 and county `157` at width 3 give `48157` |
| Geography.GeoidLength | geography.py:58 | When every value fits its width, `geoid` is as long as the sum of the widths |
| Geography.StrLtIsFirstDifference | geography.py:72 | Python string `<` holds exactly when `a` is a proper prefix of `b` or the first differing character of `a` is smaller |
| Geography.StrLtIrreflexive | geography.py:72 | No string is below itself |
| Geography.StrLtTransitive | geography.py:72 | String `<` is transitive |
| Geography.StrLtTotal | geography.py:72 | Of two different strings one is below the other |
| Geography.StrLtAsymmetric | geography.py:72 | Two strings are never each below the other |
| Geography.Compare | geography.py:72-75 | The four orderings are defined exactly when both `geoid`s are, and a missing width is a `KeyError`. They compare the `geoid`s lexicographically: `<` holds exactly when `self`'s `geoid` is a proper prefix of `other`'s or is smaller at the first differing character. `<=` adds equality, and `>` and `>=` swap the operands |
| Geography.CompareTotalOrder | geography.py:72-75 | `<=` is the negation of `>`, and `>=` the negation of `<`. `<` and `>` swap with the operands. Neither holds only for equal `geoid`s |
| Geography.CompareTransitive | geography.py:72 | `a < b` and `b < c` give `a < c` |
| Geography.PaddedValuesTie | geography.py:67-75 | Values `1` and `01` under width 2 are not equal, yet each is `<=` and `>=` the other |
| Geography.ContainsFrom | geography.py:83-87 | From index `i` on, `contains` is true exactly when `self` is no longer than `other` and each of its segments has `other`'s key and a `*` or equal value. It is an `IndexError` exactly when a longer `self` matches up to the end of `other` |
| Geography.Contains | geography.py:82-87 | The same from the first segment |
| Geography.ContainsReflexive | geography.py:82-87 | Every geography contains itself |
| Geography.ContainsTransitive | geography.py:82-87 | Containment is transitive |
| Geography.SliceDropsLast | geography.py:78 | `self[:-1]` is every segment but the last |
| Geography.Rollup | geography.py:80 | Rolling up under a key keeps every key, turns exactly the values under that key into `*` and keeps every other value |
| Geography.Add | geography.py:77-80 | `add` succeeds exactly when all segments but the last agree, and is otherwise an `AssertionError`. The result keeps `self`'s keys and leading segments, and its last value becomes `*` |
| Geography.RollupDistinct | geography.py:80 | With distinct keys only the last value changes, and the keys stay distinct |
| Geography.AddContainsBoth | geography.py:77-87 | When the last keys agree, the sum contains both operands |
| Geography.AddSymmetric | geography.py:77-80 | When the last keys agree, `a + b == b + a` |
| Registry.Lower | variable.py:89 | Lower-casing keeps the length and maps each letter to its lower-case form |
| Registry.LowerIdempotent | variable.py:132-133 | Lower-casing an already lower-cased name changes nothing |
| Registry.GetSubclass | variable.py:123 | `getsubclass` finds a kind exactly when the lower-cased name is registered, and is a `KeyError` otherwise |
| Registry.Register | variable.py:127-135 | `register` files the kind under the lower-cased name, replaces what was there, and leaves other names alone |
| Registry.RegisterThenGet | variable.py:123-133 | After registering, every spelling that lower-cases to the same name finds the new kind, and other names find what they found before |
| Registry.RegisterOverwrites | variable.py:133 | A later registration under the same name replaces an earlier one |
| Registry.CreateCustomVariable | variable.py:21-30 | A cache hit returns the cached type and changes nothing. A miss needs the kind registered, files a new type named `dataname_Kind` under the spec's JSON text, and creates it fresh. The cache only grows, and existing entries are never overwritten |
| Registry.SameJsonSameType | variable.py:22 | Two requests with specs of equal JSON text return the identical type |
| Registry.DistinctJsonDistinctTypes | variable.py:27-29 | Specs with different JSON text get different types |
| Registry.UnregisteredMissFails | variable.py:24 | A miss for an unregistered datatype fails at the kind lookup |
| Registry.Operation | variable.py:138-141 | The result type of a binary operation is the cached type of the spec derived from the two operand specs |
| Registry.Transformation | variable.py:144-147 | The result type of a transformation is the cached type of the spec derived from the operand spec |
| Registry.OperationStable | variable.py:139-141 | Repeating an operation on the same operand types yields the same type and leaves the registry unchanged |
| Variables.SameVariable | variable.py:32-39 | Two custom variables pass the guard exactly when their specs are equal. When either has no spec, their classes must be equal. A failure is a `TypeError` |
| Variables.SameVariableEquivalence | variable.py:32-39 | The guard is reflexive, symmetric and transitive |
| Variables.Compare | variable.py:70-81 | Every comparison is defined exactly when the guard passes, and otherwise is a `TypeError`. What the defined results are is stated by `Variables.CompareConsistent` |
| Variables.CompareConsistent | variable.py:70-81 | Past the guard, `!=` negates `==`, `<=` is `<` or `==`, `>=` is `>` or `==`, and `a < b` is `b > a`. `==` holds exactly for equal payloads and `<` exactly for a smaller payload, which fixes all six comparisons to the payload order |
| Variables.DifferentSpecsRefused | variable.py:35 | Comparing variables of different specs is a `TypeError` whatever the payloads |
| Variables.New | variable.py:103-110 | Only a synthesized type (one with a spec) can be instantiated, and only with a value its spec accepts. The variable keeps that type and value |
| Custom.Combine | custom.py:26-40 | The payload of each kind's method. Labels: disjoint union or contained difference, otherwise an overlap. Numbers: sum, difference and product. Ranges: exactly `Ranges.Add` / `Ranges.Subtract` on the bounds. `multiply` on a non-number is an `AttributeError` |
| Custom.CombineAddThenSubtract | custom.py:26-39 | For disjoint labels and for numbers, adding and then subtracting the same payload gives the original |
| Custom.Apply | custom.py:62-66 | A custom operation reports a payload error first, then a `KeyError` from the registry lookup, then a `Validation` error when the result spec's check refuses the payload. It succeeds exactly when all three pass. The result has the registry's state after the lookup, the type the registry holds for the derived spec, and the computed payload |
| Custom.ApplySameClasses | custom.py:38 | Applying the same operation to operands of the same classes again yields a variable of the identical type |
| Custom.ApplyAsWritten | custom.py:27-28 | As written no operation succeeds: categories read a missing `values` attribute, and numbers and ranges pass the method name where `other` is expected |
| Folds.Reduce | arrays.py:40 | `reduce` without an initial value raises `TypeError` on an empty list and returns the only element of a one-element list |
| Folds.FoldSnoc | arrays.py:40 | Folding one more element is one more step of the binary method |
| Folds.ReduceIsFromEnd | varrays.py:31 | The left fold equals the independent reading "reduce all but the last, then add the last" on every list, failures included |
| Folds.ReducePrefix | arrays.py:25 | The summation of a prefix one longer is the previous summation plus the new element |
| Folds.Minimum | arrays.py:41 | On bare numbers, `minimum` of a non-empty list is an element no larger than any element. An empty list is a `TypeError` |
| Folds.Maximum | arrays.py:42 | On bare numbers, `maximum` of a non-empty list is an element no smaller than any element. An empty list is a `TypeError` |
| Folds.MapAll | varrays.py:43 | An element-wise call yields one result per element in order, or the error of the first element that fails |
| Arrays.Prefixes | arrays.py:25 | The comprehension gives the summation of every prefix in order, or the failure of the shortest prefix that fails |
| Arrays.PrefixesStick | arrays.py:25 | Once a prefix summation fails, every longer comprehension fails the same way |
| Arrays.Upward | arrays.py:26 | Element `i` is the summation of elements `0..i` |
| Arrays.Downward | arrays.py:27 | Element `i` is the summation of elements `i..n-1`, taken from the end backwards |
| Arrays.Cumulate | arrays.py:24-28 | `upper` gives prefix summations and `lower` suffix summations, of the input's length. Any other direction is a `TypeError` |
| Arrays.EndsAreTotals | arrays.py:24-27 | The last running sum from the front and the first from the back are summations of the whole list |
| Arrays.CumulateUpward | arrays.py:24-26 | One running total gives exactly the list, or the failure, of a summation per prefix |
| Arrays.Consolidate | arrays.py:30-31 | `consolidate` keeps the length and the order: element `i` is the method's result on element `i` |
| Arrays.ReduceIntAdd | arrays.py:40 | The summation of numbers is their total |
| Arrays.SumProducts | arrays.py:38 | The summation of the weighted items is the weighted total |
| Arrays.DotOnes | arrays.py:36 | With every weight 1 the weighted total is the plain total |
| Arrays.Minimum | arrays.py:41 | `minimum` of variables succeeds exactly when the list is non-empty and every item passes the `samevariable` guard against the first. It yields an item whose payload is no larger than any other's. An empty or mixed list is a `TypeError` |
| Arrays.Maximum | arrays.py:42 | `maximum` of variables succeeds exactly when the list is non-empty and every item passes the `samevariable` guard against the first. It yields an item whose payload is no smaller than any other's. An empty or mixed list is a `TypeError` |
| Arrays.FoldMin | variable.py:74-75 | Folding `min` from a running item fails exactly when some item fails the guard against it. Otherwise it yields an item no larger than the start and every item |
| Arrays.ExtremesOfPayloads | arrays.py:41-42 | On comparable items, the minimum and maximum are those of the bare payloads |
| Arrays.Average | arrays.py:35-38 | Without weights every weight is 1, and the result is the total. Given weights of the wrong length fail the assertion. Otherwise the result is the weighted total. An empty list fails in the summation |
| Varrays.FromValues | varrays.py:19-20 | The constructor is applied to each value in order. The result has the input's length, and every element is a variable of the target type holding its value |
| Varrays.VarrayDatatype | varrays.py:24-27 | `varray_datatype` succeeds exactly when the items have one datatype, and returns it. An empty or mixed list fails the assertion |
| Varrays.Cumulate | varrays.py:45-53 | Ranges give prefix summations for `lower` and suffix summations for `upper`. Numbers raise `AttributeError`. Other datatypes and other directions are a `TypeError`, and a mixed list fails the assertion first |
| Varrays.DirectionsSwapped | varrays.py:51-52 | On ranges, `lower` here equals `upper` in `arrays.py`, and vice versa |
| Varrays.ReduceRealAdd | varrays.py:31 | The summation of numbers is their total |
| Varrays.RDotConstant | varrays.py:36 | Equal weights scale the total |
| Varrays.Mean | varrays.py:32 | On numeric items, `mean` times the count is the total. An empty list fails in the reduction. On a list of variables the division by the count fails (see "## Left out") |
| Varrays.Average | varrays.py:35-38 | Without weights an empty list divides by zero, and otherwise the result is the mean. Given weights of the wrong length fail the assertion. Otherwise the result is the weighted total |
| Varrays.DefaultAverageIsMean | varrays.py:32-36 | Without weights, `average` equals `mean` |

## Left out

- `Variables.fromfile` and `Variables.tofile` (`__init__.py:29-35`) read and write files through an outside package, so they are not modelled.
- The width table's CSV load (`geography.py:31-33`) is I/O. `Geography` takes the table as a map parameter.
- The spec is an outside object. Its `jsonstr`, `datatype` and `dataname` are fields of `Registry.Spec`. Its `checkval` and its derivation of result specs are function parameters (`check`, `derive`).
- `type()` class synthesis is modelled as a `Registry.VarType` record with a serial number. The `print` at `variable.py:28` is output and is left out.
- The `Variable` registry (`variable.py:89-99`) behaves the same as the `CustomVariable` registry, which `Registry.Register` and `Registry.GetSubclass` model.
- `Registry.Lower`: lower-cases ASCII letters only. Python's Unicode case mapping is not modelled.
- `RangeText.FromStrWith`, `RangeText.NumFromStr`: the scanner's digits are ASCII `0`-`9`. Python's `\d` in the pattern at `nums.py:23` matches every Unicode decimal digit, and `float()` reads them, so `Range.fromstr("٣ - ٥")` is `Range(3, 5)` in Python but reads as unbounded here.
- `Ranges.Average`: the weight is an explicit parameter. In the source the keyword is spelled `wieght` with default 0.5 (`nums.py:126`, `__init__.py:98`). A caller's `weight=x` is swallowed by `**kwargs`, and the midpoint is returned. `Ranges.AverageAtDefault` states the midpoint at the default.
- Floating point is not modelled:
  - `Num.divide` (`custom.py:41`, `__init__.py:61`);
  - decimal tokens in `_fixnumtype` (`nums.py:20`), which the model reports as an unmodelled error;
  - float rounding in averages.
- `Ranges.Average`, `Varrays.Mean`, `Varrays.Average`: exact rational arithmetic (`real`) stands in for floating point, so rounding is not modelled.
- `Arrays.Average`, `Varrays.Average`, `Varrays.Mean`, `Arrays.ReduceIntAdd`, `Varrays.ReduceRealAdd`: the items are modelled as numbers, `x.add(y)` in the summations (`arrays.py:40`, `varrays.py:31-32`) as `+` and `item.multiply(weight)` as multiplication. A Python number has no `add` method, and on a variable these substitutions do not hold. A custom `Num`'s `add` and `multiply` (`custom.py:38`, `custom.py:40`) pass the method name where `other` is expected, a `TypeError` (the Findings row for `custom.py:28`); the model uses the payload of the corrected `add`. The default weights are bare numbers (`[1] * len` at `arrays.py:36`, `[1 / len] * len` at `varrays.py:36`), and `mean` divides the reduced variable by the bare number `len(varray)` (`varrays.py:32`), which `Variable.__truediv__` (`variable.py:67`) sends to `divide` (`custom.py:41`). As written, `multiply` and `divide` raise that `TypeError`. With the call corrected, they read `other.spec` of a number (`variable.py:140-141`), an `AttributeError` in both the `try` and the `except` branch. So with default weights no variable class here averages, and `mean` of a list of variables never returns a value.
- `Variables.Compare`: comparisons are modelled on integer payloads only.
- `Arrays.Minimum`, `Arrays.Maximum`: items carry integer payloads, as in `Variables.Compare`.
- `RangeText.FixInt`, `RangeText.RoundTrip`, `RangeText.NumRoundTrip`: `_fixnumtype` converts every token through `float`. Integers beyond 2**53 therefore come back rounded, and very long digit strings become `inf`. The model reads every integer token exactly.
- `Custom.Combine`: requires payloads of the same kind. Operands of different kinds fail in Python on the payload operators, and that path is not modelled.
- The transformation class methods (`normalize`, `standardize`, `minmax`, `scale`, `average`, `cumulate`, `consolidate` at `custom.py:44-51` and `custom.py:83-89`) are `Registry.Transformation` with the derivation as a parameter. Their payloads come from the spec, which is outside this model.
- `__init__.py` imports `create_customvariable`, `operation`, `transformation` and `VariableOperationError` from `custom.py`, which defines none of them. Only the bodies of its methods are modelled: `Ranges` and `CategorySets`.
- `boundary` (`varrays.py:42`) calls an item method that no modelled class defines. `apply_tovarray` (`arrays.py:19-20`) only calls the function it is given.
- `Varrays.Cumulate`: the `num` branch is modelled as written. It raises `AttributeError` because it calls `cumulate` on the list, and the intended behaviour cannot be read from the code.
- The ordered dictionary behind `Geography` and `Geopath` is assumed to behave like an insertion-ordered `dict` whose slices are slices of its item list. Keys and values are modelled as text. `Geography`'s constructor (`geography.py:41`) converts them with `str()`, but `Geopath`'s (`geopath.py:28`) keeps them as given. So `Paths`, `Paths.RoundTrip` included, models text-valued `Geopath`s only. `Geopath({'a': 1})` prints as `a=1` and reads back as `{'a': '1'}`, which `__eq__` finds unequal.
- `__repr__`, `__hash__`, `asdict` and `get` are not modelled. They only format or forward their arguments.

## Findings

| source | as written | input that shows it | evidently intended | confidence | as-written member | corrected member |
|---|---|---|---|---|---|---|
| nums.py:53 | the `value` property returns `self.value`, calling itself | `Num(1).add(Num(2))` recurses until `RecursionError` | return the stored `self.__value` | not executed | Nums.NumAddAsWritten | Nums.NumAdd |
| nums.py:128 | `direction != 'center' or direction != 'state'` is true for every range | `Range(1, 3).average()` raises `RangeOperationError` | `and` instead of `or` | not executed | Ranges.AverageGuardAlwaysRefuses | Ranges.Average |
| __init__.py:100 | the same `or` guard on the spec's direction | `average()` on a `center` range raises `VariableOperationError` | `and` instead of `or` | not executed | Ranges.AverageAsWritten | Ranges.Average |
| types.py:47 | `[*self.value, *other.value]` reads a missing `value` attribute and would pass one list as a single label | `Category('a') + Category('b')` raises `AttributeError` | `self.__class__(*self.values, *other.values)` | not executed | CategoryLists.AddAsWritten | CategoryLists.Add |
| types.py:51 | the filtered list is passed as one argument, and hashing it in the constructor fails | `Category('a', 'b') - Category('b')` raises `TypeError` | unpack the filtered list into the constructor | not executed | CategoryLists.SubtractAsWritten | CategoryLists.Subtract |
| __init__.py:43 | the overlap checks of `add` and `subtract` (lines 43, 47, 48) read `self.values` and `other.values`, which a custom variable does not have | `add` of two `Category` variables with labels `{'a'}` and `{'b'}` raises `AttributeError` | read `self.value` and `other.value` | not executed | CategorySets.AddAsWrittenRefusesDisjoint | CategorySets.Add |
| custom.py:27 | the overlap check reads `self.values`, which a custom variable does not have | any category `add` raises `AttributeError` | read `self.value` and `other.value` | not executed | Custom.ApplyAsWritten | Custom.Apply |
| custom.py:28 | `self.operation('add', other, ...)` binds the method name to `other` and leaves the keyword-only `method` unset | any number `add` raises `TypeError` | `self.operation(other, method='add')` | not executed | Custom.ApplyAsWritten | Custom.Apply |
| nums.py:23 | the integer alternative `\d+` of the pattern has no sign | `Range.fromstr(str(Range(-3, 5)))` gives `Range(3, 5)` | `[-+]?\d+`, matching the decimal alternative | not executed | RangeText.NegativeBoundLosesSign | RangeText.SignedRoundTrip |
