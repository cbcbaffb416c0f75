/** `Geography`: a segment path with a zero-padded identifier (`geoid`)
    built from a table of code widths, ordering by that identifier, a
    wildcard value `*`, prefix containment and "roll the last segment up"
    addition.
 */
module Geography {
  import opened Outcomes
  import opened Text
  import opened Paths

  const AllChar: string := "*"
  const AllId: char := 'X'

  /** The table of code widths per segment key, read from a CSV file by
      the package; here a given map. */
  type Widths = map<string, nat>

  function Repeat(c: char, n: nat): (r: string)
    ensures |r| == n
    ensures forall i :: 0 <= i < n ==> r[i] == c
  {
    seq(n, _ => c)
  }

  /** Python's `str.zfill`: pad with zeros on the left up to `width`,
      after a leading sign if there is one. */
  function ZFill(s: string, width: nat): (r: string)
    ensures |s| >= width ==> r == s
    ensures |r| == if |s| >= width then |s| else width
    ensures |s| < width && (|s| == 0 || (s[0] != '+' && s[0] != '-')) ==> r[width - |s|..] == s
  {
    if |s| >= width then s
    else if |s| > 0 && (s[0] == '+' || s[0] == '-') then [s[0]] + Repeat('0', width - |s|) + s[1..]
    else Repeat('0', width - |s|) + s
  }

  /** Text that does not start with a sign, which `zfill` pads in front. */
  predicate Unsigned(s: string)
  {
    |s| == 0 || (s[0] != '+' && s[0] != '-')
  }

  /** Leading zeros do not change the value of a digit string. */
  lemma {:induction false} ZerosValue(n: nat, s: string)
    requires AllDigits(s)
    ensures AllDigits(Repeat('0', n) + s)
    ensures DigitsValue(Repeat('0', n) + s) == DigitsValue(s)
    decreases n
  {
    if n == 0 {
      assert Repeat('0', n) + s == s;
    } else {
      ZerosValue(n - 1, s);
      var t := Repeat('0', n - 1) + s;
      assert Repeat('0', n) + s == ['0'] + t;
      LeadingZero(t);
    }
  }

  lemma {:induction false} LeadingZero(t: string)
    requires AllDigits(t)
    ensures AllDigits(['0'] + t)
    ensures DigitsValue(['0'] + t) == DigitsValue(t)
    decreases |t|
  {
    var u := ['0'] + t;
    if |t| > 0 {
      assert u[..|u| - 1] == ['0'] + t[..|t| - 1];
      assert u[|u| - 1] == t[|t| - 1];
      LeadingZero(t[..|t| - 1]);
    } else {
      assert u[..|u| - 1] == [];
    }
  }

  /** Zero padding keeps a code made of digits a digit string of the same value. */
  lemma ZFillKeepsNumber(s: string, width: nat)
    requires AllDigits(s)
    ensures AllDigits(ZFill(s, width))
    ensures DigitsValue(ZFill(s, width)) == DigitsValue(s)
  {
    if |s| < width {
      assert |s| == 0 || (s[0] != '+' && s[0] != '-');
      ZerosValue(width - |s|, s);
    }
  }

  /** `__geonum`: a wildcard becomes `width` copies of `X`, any other value
      is zero-filled to `width`; a key missing from the table is a `KeyError`. */
  function GeoNum(w: Widths, s: Segment): (r: Result<string>)
    ensures r.Ok? <==> s.key in w
    ensures r.Err? ==> r.error == KeyError
    ensures r.Ok? && s.value == AllChar ==> r.value == Repeat(AllId, w[s.key])
    ensures r.Ok? && s.value != AllChar ==> |r.value| >= w[s.key] && |r.value| >= |s.value|
    ensures r.Ok? && s.value != AllChar && |s.value| >= w[s.key] ==> r.value == s.value
    ensures r.Ok? && s.value != AllChar && |s.value| <= w[s.key] ==> |r.value| == w[s.key]
    ensures r.Ok? && s.value != AllChar && |s.value| <= w[s.key] && Unsigned(s.value) ==>
      r.value == Repeat('0', w[s.key] - |s.value|) + s.value
    ensures r.Ok? && s.value != AllChar && |s.value| < w[s.key] && !Unsigned(s.value) ==>
      r.value == [s.value[0]] + Repeat('0', w[s.key] - |s.value|) + s.value[1..]
  {
    if s.key !in w then Err(KeyError)
    else if s.value == AllChar then Ok(Repeat(AllId, w[s.key]))
    else Ok(ZFill(s.value, w[s.key]))
  }

  /** `geoid`: the segment codes concatenated in order. */
  function Geoid(w: Widths, p: Path): (r: Result<string>)
    ensures r.Ok? <==> forall i :: 0 <= i < |p| ==> p[i].key in w
    ensures r.Err? ==> r.error == KeyError
  {
    if |p| == 0 then Ok("")
    else
      var rest := Geoid(w, p[1..]);
      assert (forall i :: 0 <= i < |p[1..]| ==> p[1..][i].key in w) <==>
             (forall i :: 1 <= i < |p| ==> p[i].key in w) by {
        assert forall i :: 1 <= i < |p| ==> p[i] == p[1..][i - 1];
      }
      if p[0].key !in w then Err(KeyError)
      else if rest.Err? then Err(rest.error)
      else Ok(GeoNum(w, p[0]).value + rest.value)
  }

  /** The code of every segment, in order; every key must have a width. */
  function Codes(w: Widths, p: Path): (r: seq<string>)
    requires forall i :: 0 <= i < |p| ==> p[i].key in w
    ensures |r| == |p| && forall i :: 0 <= i < |p| ==> GeoNum(w, p[i]) == Ok(r[i])
  {
    seq(|p|, i requires 0 <= i < |p| => GeoNum(w, p[i]).value)
  }

  /** The identifier is `''.join` of the segment codes, in path order. */
  lemma {:induction false} GeoidIsJoin(w: Widths, p: Path)
    requires forall i :: 0 <= i < |p| ==> p[i].key in w
    ensures Geoid(w, p) == Ok(Join(Codes(w, p), ""))
    decreases |p|
  {
    if |p| > 0 {
      assert forall i :: 0 <= i < |p[1..]| ==> p[1..][i] == p[i + 1];
      GeoidIsJoin(w, p[1..]);
      var cs := Codes(w, p);
      assert cs[1..] == Codes(w, p[1..]);
      if |p| > 1 {
        assert Join(cs, "") == cs[0] + "" + Join(cs[1..], "");
        assert cs[0] + "" == cs[0];
      } else {
        assert Geoid(w, p[1..]) == Ok("");
        assert cs[0] + "" == cs[0];
      }
    }
  }

  /** A one-segment path's identifier is that segment's code. */
  lemma GeoidSingle(w: Widths, s: Segment)
    ensures Geoid(w, [s]) == GeoNum(w, s)
  {
    assert [s][1..] == [];
    assert Geoid(w, [s][1..]) == Ok("");
    if s.key in w {
      var c := GeoNum(w, s).value;
      assert c + "" == c;
    }
  }

  /** The identifier of a joined path is the two identifiers one after the other. */
  lemma {:induction false} GeoidAppend(w: Widths, p: Path, q: Path)
    ensures Geoid(w, p).Ok? && Geoid(w, q).Ok? ==> Geoid(w, p + q) == Ok(Geoid(w, p).value + Geoid(w, q).value)
    ensures Geoid(w, p + q).Ok? <==> Geoid(w, p).Ok? && Geoid(w, q).Ok?
    decreases |p|
  {
    if |p| == 0 {
      assert p + q == q;
      assert Geoid(w, p) == Ok("");
      assert Geoid(w, q).Ok? ==> "" + Geoid(w, q).value == Geoid(w, q).value;
    } else {
      assert (p + q)[1..] == p[1..] + q;
      assert (p + q)[0] == p[0];
      GeoidAppend(w, p[1..], q);
      if Geoid(w, p).Ok? && Geoid(w, q).Ok? {
        var c := GeoNum(w, p[0]).value;
        var a := Geoid(w, p[1..]).value;
        var b := Geoid(w, q).value;
        assert Geoid(w, p).value == c + a;
        assert Geoid(w, p + q).value == c + (a + b);
        assert c + (a + b) == (c + a) + b;
      }
    }
  }

  /** A state code followed by a county code. */
  lemma GeoidStateCounty()
    ensures Geoid(map["state" := 2, "county" := 3], [Segment("state", "48"), Segment("county", "157")]) == Ok("48157")
  {
    var w := map["state" := 2, "county" := 3];
    var st := Segment("state", "48");
    var co := Segment("county", "157");
    assert GeoNum(w, st) == Ok("48");
    assert GeoNum(w, co) == Ok("157");
    GeoidSingle(w, co);
    assert [st, co][1..] == [co];
    assert Geoid(w, [st, co]) == Ok("48" + "157");
    assert "48" + "157" == "48157";
  }

  /** Every key has a width and every concrete value fits it. */
  predicate Fits(w: Widths, p: Path)
  {
    forall i :: 0 <= i < |p| ==> p[i].key in w && (p[i].value == AllChar || |p[i].value| <= w[p[i].key])
  }

  function WidthSum(w: Widths, p: Path): nat
    requires forall i :: 0 <= i < |p| ==> p[i].key in w
  {
    if |p| == 0 then 0 else w[p[0].key] + WidthSum(w, p[1..])
  }

  /** When every value fits, the identifier is as long as the widths add up to. */
  lemma {:induction false} GeoidLength(w: Widths, p: Path)
    requires Fits(w, p)
    ensures Geoid(w, p).Ok?
    ensures |Geoid(w, p).value| == WidthSum(w, p)
    decreases |p|
  {
    if |p| > 0 {
      assert Fits(w, p[1..]) by {
        forall i | 0 <= i < |p[1..]| ensures p[1..][i] == p[i + 1] { }
      }
      GeoidLength(w, p[1..]);
    }
  }

  // ------------------------------------------------------------ ordering

  /** Python's `<` on strings: lexicographic by code point, a proper
      prefix coming first. */
  predicate StrLt(a: string, b: string)
    decreases |a|
  {
    if |b| == 0 then false
    else if |a| == 0 then true
    else if a[0] != b[0] then a[0] < b[0]
    else StrLt(a[1..], b[1..])
  }

  /** The same order defined by the first position where the strings part. */
  predicate PartsBelow(a: string, b: string)
  {
    exists k :: 0 <= k <= |a| && k <= |b| && a[..k] == b[..k] &&
      ((k == |a| && k < |b|) || (k < |a| && k < |b| && a[k] < b[k]))
  }

  lemma {:induction false} StrLtIsFirstDifference(a: string, b: string)
    ensures StrLt(a, b) <==> PartsBelow(a, b)
    decreases |a|
  {
    if |b| == 0 {
      assert !PartsBelow(a, b);
    } else if |a| == 0 {
      assert a[..0] == b[..0];
    } else if a[0] != b[0] {
      assert a[..0] == b[..0];
      assert forall k :: 0 < k <= |a| && k <= |b| ==> a[..k] != b[..k] by {
        forall k | 0 < k <= |a| && k <= |b| ensures a[..k] != b[..k] {
          assert a[..k][0] == a[0] && b[..k][0] == b[0];
        }
      }
    } else {
      StrLtIsFirstDifference(a[1..], b[1..]);
      if PartsBelow(a, b) {
        var k :| 0 <= k <= |a| && k <= |b| && a[..k] == b[..k] &&
          ((k == |a| && k < |b|) || (k < |a| && k < |b| && a[k] < b[k]));
        assert k > 0;
        assert a[1..][..k - 1] == a[..k][1..] && b[1..][..k - 1] == b[..k][1..];
        assert PartsBelow(a[1..], b[1..]);
      }
      if PartsBelow(a[1..], b[1..]) {
        var k :| 0 <= k <= |a[1..]| && k <= |b[1..]| && a[1..][..k] == b[1..][..k] &&
          ((k == |a[1..]| && k < |b[1..]|) || (k < |a[1..]| && k < |b[1..]| && a[1..][k] < b[1..][k]));
        assert a[..k + 1] == [a[0]] + a[1..][..k] && b[..k + 1] == [b[0]] + b[1..][..k];
        assert PartsBelow(a, b);
      }
    }
  }

  lemma {:induction false} StrLtIrreflexive(a: string)
    ensures !StrLt(a, a)
    decreases |a|
  {
    if |a| > 0 {
      StrLtIrreflexive(a[1..]);
    }
  }

  lemma {:induction false} StrLtTransitive(a: string, b: string, c: string)
    requires StrLt(a, b) && StrLt(b, c)
    ensures StrLt(a, c)
    decreases |a|
  {
    if |a| > 0 && a[0] == b[0] && b[0] == c[0] {
      StrLtTransitive(a[1..], b[1..], c[1..]);
    }
  }

  /** Two different strings are ordered one way or the other. */
  lemma {:induction false} StrLtTotal(a: string, b: string)
    requires a != b
    ensures StrLt(a, b) || StrLt(b, a)
    decreases |a|
  {
    if |a| > 0 && |b| > 0 && a[0] == b[0] {
      assert a == [a[0]] + a[1..] && b == [b[0]] + b[1..];
      StrLtTotal(a[1..], b[1..]);
    }
  }

  lemma {:induction false} StrLtAsymmetric(a: string, b: string)
    requires StrLt(a, b)
    ensures !StrLt(b, a)
    decreases |a|
  {
    if |a| > 0 && a[0] == b[0] {
      StrLtAsymmetric(a[1..], b[1..]);
    }
  }

  datatype Comparison = Below | AtMost | AtLeast | Above

  /** `__lt__`, `__le__`, `__ge__`, `__gt__`: Python string comparison of
      the two identifiers, which is lexicographic (`PartsBelow`). */
  function Compare(w: Widths, a: Path, b: Path, op: Comparison): (r: Result<bool>)
    ensures r.Ok? <==> Geoid(w, a).Ok? && Geoid(w, b).Ok?
    ensures r.Err? ==> r.error == KeyError
    ensures r.Ok? ==>
      var x, y := Geoid(w, a).value, Geoid(w, b).value;
      r.value == match op
        case Below => PartsBelow(x, y)
        case AtMost => PartsBelow(x, y) || x == y
        case AtLeast => PartsBelow(y, x) || x == y
        case Above => PartsBelow(y, x)
  {
    var x :- Geoid(w, a);
    var y :- Geoid(w, b);
    StrLtIsFirstDifference(x, y);
    StrLtIsFirstDifference(y, x);
    Ok(match op
       case Below => StrLt(x, y)
       case AtMost => StrLt(x, y) || x == y
       case AtLeast => StrLt(y, x) || x == y
       case Above => StrLt(y, x))
  }

  /** Where both identifiers exist the four comparisons form a total
      order: `<=` is the negation of `>`, `>=` of `<`, exactly one of `<`,
      equal identifiers and `>` holds, and `<` is transitive. */
  lemma CompareTotalOrder(w: Widths, a: Path, b: Path)
    requires Geoid(w, a).Ok? && Geoid(w, b).Ok?
    ensures Compare(w, a, b, AtMost).value == !Compare(w, a, b, Above).value
    ensures Compare(w, a, b, AtLeast).value == !Compare(w, a, b, Below).value
    ensures Compare(w, a, b, Below).value == Compare(w, b, a, Above).value
    ensures Compare(w, a, b, Below).value ==> !Compare(w, a, b, Above).value
    ensures !Compare(w, a, b, Below).value && !Compare(w, a, b, Above).value ==> Geoid(w, a) == Geoid(w, b)
  {
    var x, y := Geoid(w, a).value, Geoid(w, b).value;
    StrLtIrreflexive(x);
    if x != y {
      StrLtTotal(x, y);
    }
    if StrLt(x, y) {
      StrLtAsymmetric(x, y);
    }
    if StrLt(y, x) {
      StrLtAsymmetric(y, x);
    }
  }

  lemma CompareTransitive(w: Widths, a: Path, b: Path, c: Path)
    requires Compare(w, a, b, Below) == Ok(true) && Compare(w, b, c, Below) == Ok(true)
    ensures Compare(w, a, c, Below) == Ok(true)
  {
    StrLtTransitive(Geoid(w, a).value, Geoid(w, b).value, Geoid(w, c).value);
  }

  /** The order is on identifiers, not on paths: a value and its zero-padded
      form are different paths that compare as neither below nor above. */
  lemma PaddedValuesTie()
    ensures var w := map["state" := 2];
            var a := [Segment("state", "1")];
            var b := [Segment("state", "01")];
            Eq(a, SameClass(b)) == Ok(false) &&
            Compare(w, a, b, AtMost) == Ok(true) && Compare(w, a, b, AtLeast) == Ok(true)
  {
    var w := map["state" := 2];
    var a := [Segment("state", "1")];
    var b := [Segment("state", "01")];
    assert ZFill("1", 2) == "01";
    assert ZFill("01", 2) == "01";
    assert Repeat('0', 1) + "1" == "01";
    assert GeoNum(w, a[0]) == Ok("01");
    assert GeoNum(w, b[0]) == Ok("01");
    assert Geoid(w, a) == Ok("01") by {
      assert a[1..] == [];
      assert "01" + "" == "01";
    }
    assert Geoid(w, b) == Ok("01") by {
      assert b[1..] == [];
      assert "01" + "" == "01";
    }
  }

  // ------------------------------------------------------------ containment

  /** Position `i` of `b` lies inside position `i` of `a`. */
  predicate SegmentWithin(outer: Segment, inner: Segment)
  {
    outer.key == inner.key && (outer.value == AllChar || outer.value == inner.value)
  }

  /** The loop of `contains` from position `i` on: the first mismatch
      answers `false`; running past the end of `b` is an `IndexError`. */
  function ContainsFrom(a: Path, b: Path, i: nat): (r: Result<bool>)
    requires i <= |a| && i <= |b|
    ensures r == Ok(true) <==> |a| <= |b| && forall j :: i <= j < |a| ==> SegmentWithin(a[j], b[j])
    ensures r == Err(IndexError) <==> |b| < |a| && forall j :: i <= j < |b| ==> SegmentWithin(a[j], b[j])
    ensures r.Err? ==> r.error == IndexError
    decreases |a| - i
  {
    if i == |a| then Ok(true)
    else if i >= |b| then Err(IndexError)
    else if a[i].key != b[i].key then Ok(false)
    else if a[i].value != AllChar && a[i].value != b[i].value then Ok(false)
    else ContainsFrom(a, b, i + 1)
  }

  /** `contains`: `a` covers `b` position by position over the length of `a`. */
  function Contains(a: Path, b: Path): (r: Result<bool>)
    ensures r == Ok(true) <==> |a| <= |b| && forall j :: 0 <= j < |a| ==> SegmentWithin(a[j], b[j])
    ensures r.Err? <==> |b| < |a| && forall j :: 0 <= j < |b| ==> SegmentWithin(a[j], b[j])
    ensures r.Err? ==> r.error == IndexError
  {
    ContainsFrom(a, b, 0)
  }

  lemma ContainsReflexive(a: Path)
    ensures Contains(a, a) == Ok(true)
  {
  }

  lemma ContainsTransitive(a: Path, b: Path, c: Path)
    requires Contains(a, b) == Ok(true) && Contains(b, c) == Ok(true)
    ensures Contains(a, c) == Ok(true)
  {
    forall j | 0 <= j < |a| ensures SegmentWithin(a[j], c[j]) {
      assert SegmentWithin(a[j], b[j]) && SegmentWithin(b[j], c[j]);
    }
  }

  // ------------------------------------------------------------ add

  /** Python's `p[:-1]`. */
  function AllButLast(p: Path): Path
  {
    if |p| == 0 then [] else p[..|p| - 1]
  }

  /** The slice `p[:-1]` is `AllButLast(p)`, the empty path included. */
  lemma SliceDropsLast(p: Path)
    ensures Slice(p, None, Some(-1)) == AllButLast(p)
  {
    if |p| > 0 {
      DropLast(p);
    }
  }

  /** Every segment whose key is `k` gets the wildcard value. */
  function Rollup(p: Path, k: string): (r: Path)
    ensures Keys(r) == Keys(p)
    ensures forall i :: 0 <= i < |p| ==> r[i].value == if p[i].key == k then AllChar else p[i].value
  {
    seq(|p|, i requires 0 <= i < |p| => if p[i].key == k then Segment(k, AllChar) else p[i])
  }

  /** `add`: assert that all but the last segments agree (`self[:-1]`,
      which is `AllButLast` by `SliceDropsLast`), then return `a` with its
      last segment rolled up to the wildcard. */
  function Add(a: Path, b: Path): (r: Result<Path>)
    ensures r.Ok? <==> AllButLast(a) == AllButLast(b)
    ensures r.Err? ==> r.error == AssertionError
    ensures r.Ok? && |a| == 0 ==> r.value == []
    ensures r.Ok? && |a| > 0 && DistinctKeys(a) ==>
      Keys(r.value) == Keys(a) && r.value[..|a| - 1] == a[..|a| - 1] && r.value[|a| - 1].value == AllChar
  {
    if AllButLast(a) != AllButLast(b) then Err(AssertionError)
    else if |a| == 0 then Ok(FromPairs([]))
    else
      var rolled := Rollup(a, a[|a| - 1].key);
      if DistinctKeys(a) then
        RollupDistinct(a);
        FromDistinctPairs(rolled);
        Ok(FromPairs(rolled))
      else Ok(FromPairs(rolled))
  }

  /** In a dictionary only the last segment carries the last key. */
  lemma RollupDistinct(a: Path)
    requires |a| > 0 && DistinctKeys(a)
    ensures var r := Rollup(a, a[|a| - 1].key);
            DistinctKeys(r) && r[..|a| - 1] == a[..|a| - 1] && r[|a| - 1].value == AllChar
  {
    var r := Rollup(a, a[|a| - 1].key);
    forall i, j | 0 <= i < j < |r| ensures r[i].key != r[j].key {
      assert r[i].key == Keys(r)[i] == Keys(a)[i];
      assert r[j].key == Keys(r)[j] == Keys(a)[j];
    }
    forall i | 0 <= i < |a| - 1 ensures r[i] == a[i] {
      assert a[i].key != a[|a| - 1].key;
    }
  }

  /** When the last keys agree, the sum contains both operands. */
  lemma AddContainsBoth(a: Path, b: Path)
    requires |a| > 0 && |b| > 0 && DistinctKeys(a)
    requires AllButLast(a) == AllButLast(b) && a[|a| - 1].key == b[|b| - 1].key
    ensures Add(a, b).Ok?
    ensures Contains(Add(a, b).value, a) == Ok(true)
    ensures Contains(Add(a, b).value, b) == Ok(true)
  {
    var r := Add(a, b).value;
    assert |a| == |b|;
    forall j | 0 <= j < |r| ensures SegmentWithin(r[j], a[j]) && SegmentWithin(r[j], b[j]) {
      assert r[j].key == Keys(r)[j] == Keys(a)[j];
      if j < |a| - 1 {
        assert r[j] == r[..|a| - 1][j] == a[..|a| - 1][j] == b[..|b| - 1][j];
      }
    }
  }

  /** The sum of a dictionary is its leading segments followed by its last
      key with the wildcard value. */
  lemma AddShape(a: Path, b: Path)
    requires |a| > 0 && DistinctKeys(a) && AllButLast(a) == AllButLast(b)
    ensures Add(a, b) == Ok(a[..|a| - 1] + [Segment(a[|a| - 1].key, AllChar)])
  {
    var n := |a|;
    assert Add(a, b).Ok?;
    var r := Add(a, b).value;
    assert Keys(r) == Keys(a) && r[..n - 1] == a[..n - 1] && r[n - 1].value == AllChar;
    assert |r| == n;
    assert r[n - 1].key == a[n - 1].key by {
      assert Keys(r)[n - 1] == r[n - 1].key && Keys(a)[n - 1] == a[n - 1].key;
    }
    assert r[n - 1] == Segment(a[n - 1].key, AllChar);
    assert r == r[..n - 1] + [r[n - 1]];
  }

  /** When the last keys agree the operands of `add` can be swapped. */
  lemma AddSymmetric(a: Path, b: Path)
    requires |a| > 0 && |b| > 0 && DistinctKeys(a) && DistinctKeys(b)
    requires AllButLast(a) == AllButLast(b) && a[|a| - 1].key == b[|b| - 1].key
    ensures Add(a, b) == Add(b, a)
  {
    AddShape(a, b);
    AddShape(b, a);
    assert a[..|a| - 1] == AllButLast(a) && b[..|b| - 1] == AllButLast(b);
  }
}
