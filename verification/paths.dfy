/** Ordered `key=value` segment paths: the shared behaviour of `Geopath`
    and `Geography` (an insertion-ordered dictionary with positional
    access, slicing, equality and a `|`-joined text form).
 */
module Paths {
  import opened Outcomes
  import opened Text

  datatype Segment = Segment(key: string, value: string)

  /** The dictionary's items in insertion order. */
  type Path = seq<Segment>

  const Delimiter: string := "|"
  const Equals: string := "="

  function Keys(p: Path): (r: seq<string>)
    ensures |r| == |p|
    ensures forall i :: 0 <= i < |p| ==> r[i] == p[i].key
  {
    seq(|p|, i requires 0 <= i < |p| => p[i].key)
  }

  function Values(p: Path): (r: seq<string>)
    ensures |r| == |p|
    ensures forall i :: 0 <= i < |p| ==> r[i] == p[i].value
  {
    seq(|p|, i requires 0 <= i < |p| => p[i].value)
  }

  /** What every dictionary satisfies: no key occurs twice. */
  predicate DistinctKeys(p: Path)
  {
    forall i, j :: 0 <= i < j < |p| ==> p[i].key != p[j].key
  }

  /** The dictionary lookup `d[k]`, `None` for a missing key. */
  function Lookup(p: Path, k: string): (r: Option<string>)
    ensures r.None? <==> k !in Keys(p)
    ensures r.Some? ==> exists i :: 0 <= i < |p| && p[i] == Segment(k, r.value)
  {
    if |p| == 0 then None
    else if p[0].key == k then Some(p[0].value)
    else
      var t := Lookup(p[1..], k);
      assert t.Some? ==> exists i :: 1 <= i < |p| && p[i] == Segment(k, t.value) by {
        if t.Some? {
          var i :| 0 <= i < |p[1..]| && p[1..][i] == Segment(k, t.value);
          assert p[i + 1] == p[1..][i];
        }
      }
      assert k in Keys(p[1..]) <==> k in Keys(p) by {
        assert forall i :: 0 <= i < |p[1..]| ==> Keys(p[1..])[i] == Keys(p)[i + 1];
        assert Keys(p) == [p[0].key] + Keys(p[1..]);
      }
      t
  }

  /** The assignment `d[k] = v`: an existing key keeps its position and
      takes the new value; a new key is appended. */
  function Put(p: Path, k: string, v: string): (r: Path)
    ensures k !in Keys(p) ==> r == p + [Segment(k, v)]
    ensures k in Keys(p) ==> Keys(r) == Keys(p)
    ensures DistinctKeys(p) ==> DistinctKeys(r)
  {
    if |p| == 0 then [Segment(k, v)]
    else if p[0].key == k then [Segment(k, v)] + p[1..]
    else
      var t := Put(p[1..], k, v);
      PutStep(p, k, v, t);
      [p[0]] + t
  }

  /** The induction step of `Put` when the first key differs. */
  lemma PutStep(p: Path, k: string, v: string, t: Path)
    requires |p| > 0 && p[0].key != k
    requires k !in Keys(p[1..]) ==> t == p[1..] + [Segment(k, v)]
    requires k in Keys(p[1..]) ==> Keys(t) == Keys(p[1..])
    requires DistinctKeys(p[1..]) ==> DistinctKeys(t)
    ensures k !in Keys(p) ==> [p[0]] + t == p + [Segment(k, v)]
    ensures k in Keys(p) ==> Keys([p[0]] + t) == Keys(p)
    ensures DistinctKeys(p) ==> DistinctKeys([p[0]] + t)
  {
    assert k in Keys(p) <==> k in Keys(p[1..]) by {
      KeysCons(p[0], p[1..]);
      assert p == [p[0]] + p[1..];
    }
    if k in Keys(p[1..]) {
      PutStepOld(p, k, t);
    } else {
      PutStepNew(p, Segment(k, v), t);
    }
    if DistinctKeys(p) {
      PutStepDistinct(p, k, v, t);
    }
  }

  lemma PutStepOld(p: Path, k: string, t: Path)
    requires |p| > 0 && Keys(t) == Keys(p[1..])
    ensures Keys([p[0]] + t) == Keys(p)
  {
    KeysCons(p[0], p[1..]);
    KeysCons(p[0], t);
    assert p == [p[0]] + p[1..];
  }

  lemma PutStepNew(p: Path, s: Segment, t: Path)
    requires |p| > 0 && t == p[1..] + [s]
    ensures [p[0]] + t == p + [s]
  {
    assert p == [p[0]] + p[1..];
  }

  lemma KeysCons(s: Segment, p: Path)
    ensures Keys([s] + p) == [s.key] + Keys(p)
  {
  }

  lemma PutStepDistinct(p: Path, k: string, v: string, t: Path)
    requires |p| > 0 && p[0].key != k && DistinctKeys(p)
    requires k !in Keys(p[1..]) ==> t == p[1..] + [Segment(k, v)]
    requires k in Keys(p[1..]) ==> Keys(t) == Keys(p[1..])
    requires DistinctKeys(p[1..]) ==> DistinctKeys(t)
    ensures DistinctKeys([p[0]] + t)
  {
    var r := [p[0]] + t;
    assert DistinctKeys(p[1..]) by {
      forall i, j | 0 <= i < j < |p[1..]| ensures p[1..][i].key != p[1..][j].key {
        assert p[1..][i] == p[i + 1] && p[1..][j] == p[j + 1];
      }
    }
    assert p[0].key !in Keys(p[1..]) by {
      forall i | 0 <= i < |p[1..]| ensures Keys(p[1..])[i] != p[0].key {
        assert p[1..][i] == p[i + 1];
      }
    }
    assert p[0].key !in Keys(t) by {
      if k !in Keys(p[1..]) {
        assert Keys(t) == Keys(p[1..]) + [k];
      }
    }
    forall i, j | 0 <= i < j < |r| ensures r[i].key != r[j].key {
      if i == 0 {
        assert r[j].key == Keys(t)[j - 1];
      } else {
        assert r[i] == t[i - 1] && r[j] == t[j - 1];
      }
    }
  }

  /** The dictionary built from a list of pairs, left to right. */
  function FromPairs(pairs: seq<Segment>): (r: Path)
    ensures DistinctKeys(r)
    decreases |pairs|
  {
    if |pairs| == 0 then []
    else
      var last := pairs[|pairs| - 1];
      Put(FromPairs(pairs[..|pairs| - 1]), last.key, last.value)
  }

  /** Pairs with distinct keys build the dictionary that lists them in order. */
  lemma {:induction false} FromDistinctPairs(pairs: seq<Segment>)
    requires DistinctKeys(pairs)
    ensures FromPairs(pairs) == pairs
    decreases |pairs|
  {
    if |pairs| > 0 {
      var init := pairs[..|pairs| - 1];
      var last := pairs[|pairs| - 1];
      assert DistinctKeys(init);
      FromDistinctPairs(init);
      assert last.key !in Keys(init) by {
        forall i | 0 <= i < |init| ensures Keys(init)[i] != last.key {
          assert init[i] == pairs[i];
        }
      }
      assert init + [last] == pairs;
    }
  }

  /** A later pair for an existing key overwrites its value in place. */
  lemma DuplicateKeyOverwrites(k: string, v: string, w: string, j: string, u: string)
    requires j != k
    ensures FromPairs([Segment(k, v), Segment(j, u), Segment(k, w)]) == [Segment(k, w), Segment(j, u)]
  {
    var pairs := [Segment(k, v), Segment(j, u), Segment(k, w)];
    assert pairs[..2][..1] == [Segment(k, v)];
    assert pairs[..1] == [Segment(k, v)];
    assert FromPairs(pairs[..2]) == [Segment(k, v), Segment(j, u)] by {
      assert FromPairs(pairs[..2][..1]) == [Segment(k, v)] by {
        assert pairs[..2][..1][..0] == [];
      }
    }
  }

  /** `len(p)`: the number of segments, as many keys as values. */
  function Len(p: Path): (r: nat)
    ensures r == |Keys(p)| == |Values(p)|
  {
    |p|
  }

  /** A Python list index `i` into a list of length `n`: negative indexes
      count from the end; anything outside `-n <= i < n` is an `IndexError`. */
  function Position(n: nat, i: int): (r: Result<nat>)
    ensures r.Ok? <==> -(n as int) <= i < n
    ensures r.Err? ==> r.error == IndexError
    ensures r.Ok? ==> r.value < n && (r.value == i || r.value == i + n)
  {
    if 0 <= i < n then Ok(i)
    else if -(n as int) <= i < 0 then Ok(i + n)
    else Err(IndexError)
  }

  /** `getkey(i)`: the key at a Python list index. */
  function GetKey(p: Path, i: int): (r: Result<string>)
    ensures r.Ok? <==> Position(|p|, i).Ok?
    ensures r.Ok? ==> r.value == Keys(p)[Position(|p|, i).value]
    ensures r.Err? ==> r.error == IndexError
  {
    var n :- Position(|p|, i);
    Ok(p[n].key)
  }

  /** The argument of `getvalue`: a position, a key, or anything else. */
  datatype ValueIndex = At(i: int) | Named(k: string) | NotAnIndex

  /** `getvalue(index)`: by position (`IndexError` when out of range), by
      key (`KeyError` when missing), otherwise a `TypeError`. */
  function GetValue(p: Path, index: ValueIndex): (r: Result<string>)
    ensures index.At? ==> (r.Ok? <==> Position(|p|, index.i).Ok?)
    ensures index.At? && r.Ok? ==> r.value == Values(p)[Position(|p|, index.i).value]
    ensures index.Named? ==> (r.Ok? <==> index.k in Keys(p))
    ensures index.Named? && r.Ok? ==> Segment(index.k, r.value) in p
    ensures index.Named? && r.Err? ==> r.error == KeyError
    ensures index.NotAnIndex? ==> r == Err(TypeError)
  {
    match index
    case At(i) =>
      var n :- Position(|p|, i);
      Ok(p[n].value)
    case Named(k) =>
      var v := Lookup(p, k);
      if v.None? then Err(KeyError) else Ok(v.value)
    case NotAnIndex => Err(TypeError)
  }

  /** A slice bound with step 1, clamped as Python clamps it. */
  function Bound(n: nat, b: Option<int>, default: nat): (r: nat)
    requires default <= n
    ensures r <= n
    ensures b.Some? && 0 <= b.value <= n ==> r == b.value
    ensures b.Some? && -(n as int) <= b.value < 0 ==> r == b.value + n
    ensures b.Some? && b.value > n ==> r == n
    ensures b.Some? && b.value < -(n as int) ==> r == 0
    ensures b.None? ==> r == default
  {
    match b
    case None => default
    case Some(x) =>
      if x < 0 then (if x + n < 0 then 0 else x + n)
      else if x > n then n
      else x
  }

  /** `p[start:stop]`: the segments between the clamped bounds, in order. */
  function Slice(p: Path, start: Option<int>, stop: Option<int>): (r: Path)
    ensures exists lo, hi :: 0 <= lo <= hi <= |p| && r == p[lo..hi]
    ensures start.None? && stop.None? ==> r == p
    ensures start.Some? && stop.Some? && 0 <= start.value <= stop.value <= |p| ==> r == p[start.value..stop.value]
    ensures start.None? && stop.Some? && 0 <= stop.value <= |p| ==> r == p[..stop.value]
    ensures start.None? && stop.Some? && -(|p| as int) <= stop.value < 0 ==> r == p[..|p| + stop.value]
    ensures start.Some? && stop.None? && 0 <= start.value <= |p| ==> r == p[start.value..]
    ensures start.Some? && stop.None? && -(|p| as int) <= start.value < 0 ==> r == p[|p| + start.value..]
    // the run starts at the clamped start and is empty when the clamped stop is not past it
    ensures var lo := Bound(|p|, start, 0);
            var hi := Bound(|p|, stop, |p|);
            |r| == (if hi <= lo then 0 else hi - lo) && forall i :: 0 <= i < |r| ==> r[i] == p[lo + i]
  {
    var lo := Bound(|p|, start, 0);
    var hi := Bound(|p|, stop, |p|);
    if hi <= lo then p[lo..lo] else p[lo..hi]
  }

  /** `p[:-1]` is every segment but the last. */
  lemma DropLast(p: Path)
    requires |p| > 0
    ensures Slice(p, None, Some(-1)) == p[..|p| - 1]
  {
  }

  /** `p[:]` is the whole path. */
  lemma SliceAll(p: Path)
    ensures Slice(p, None, None) == p
  {
  }

  /** A slice of a dictionary is again a dictionary. */
  lemma SliceDistinct(p: Path, start: Option<int>, stop: Option<int>)
    requires DistinctKeys(p)
    ensures DistinctKeys(Slice(p, start, stop))
  {
    var lo, hi :| 0 <= lo <= hi <= |p| && Slice(p, start, stop) == p[lo..hi];
    forall i, j | 0 <= i < j < hi - lo ensures p[lo..hi][i].key != p[lo..hi][j].key {
      assert p[lo..hi][i] == p[lo + i] && p[lo..hi][j] == p[lo + j];
    }
  }

  /** The argument of `p[...]`. */
  datatype Index = ByKey(k: string) | ByPosition(i: int) | BySlice(start: Option<int>, stop: Option<int>) | Unsupported

  /** `__getitem__`: a one-segment path for a key or a position, the
      sub-path for a slice, a `TypeError` for anything else. */
  function GetItem(p: Path, index: Index): (r: Result<Path>)
    ensures index.ByKey? ==> (r.Ok? <==> index.k in Keys(p))
    ensures index.ByKey? && r.Ok? ==> |r.value| == 1 && r.value[0].key == index.k && r.value[0] in p
    ensures index.ByKey? && r.Err? ==> r.error == KeyError
    ensures index.ByPosition? ==> (r.Ok? <==> -(|p| as int) <= index.i < |p|)
    ensures index.ByPosition? && r.Ok? ==> r.value == [p[Position(|p|, index.i).value]]
    ensures index.ByPosition? && r.Err? ==> r.error == IndexError
    ensures index.BySlice? ==> r.Ok?
    ensures index.BySlice? && DistinctKeys(p) ==> r.value == Slice(p, index.start, index.stop)
    ensures index.Unsupported? ==> r == Err(TypeError)
  {
    match index
    case ByKey(k) =>
      var v :- GetValue(p, Named(k));
      FromDistinctPairs([Segment(k, v)]);
      Ok(FromPairs([Segment(k, v)]))
    case ByPosition(i) =>
      var n :- Position(|p|, i);
      FromDistinctPairs([p[n]]);
      Ok(FromPairs([Segment(p[n].key, p[n].value)]))
    case BySlice(start, stop) =>
      var s := Slice(p, start, stop);
      if DistinctKeys(p) then
        SliceDistinct(p, start, stop);
        FromDistinctPairs(s);
        Ok(FromPairs(s))
      else Ok(FromPairs(s))
    case Unsupported => Err(TypeError)
  }

  /** The right operand of `==`: a path of the same class, or something else. */
  datatype Other = SameClass(path: Path) | Foreign

  /** `__eq__`: equal key lists and equal value lists; a `TypeError` when
      the other operand is of another class. */
  function Eq(p: Path, other: Other): (r: Result<bool>)
    ensures r.Ok? <==> other.SameClass?
    ensures r.Err? ==> r.error == TypeError
    ensures r.Ok? ==> (r.value <==> p == other.path)
  {
    if other.Foreign? then Err(TypeError)
    else
      var q := other.path;
      assert Keys(p) == Keys(q) && Values(p) == Values(q) ==> p == q by {
        if Keys(p) == Keys(q) && Values(p) == Values(q) {
          assert |p| == |q|;
          forall i | 0 <= i < |p| ensures p[i] == q[i] {
            assert Keys(p)[i] == Keys(q)[i] && Values(p)[i] == Values(q)[i];
          }
        }
      }
      Ok(Keys(p) == Keys(q) && Values(p) == Values(q))
  }

  // ------------------------------------------------------------ text form

  function SegmentStr(s: Segment): string
  {
    s.key + Equals + s.value
  }

  function SegmentStrs(p: Path): (r: seq<string>)
    ensures |r| == |p|
    ensures forall i :: 0 <= i < |p| ==> r[i] == SegmentStr(p[i])
  {
    seq(|p|, i requires 0 <= i < |p| => SegmentStr(p[i]))
  }

  /** `__str__`: the `key=value` items joined by `|`. */
  function Str(p: Path): string
  {
    Join(SegmentStrs(p), Delimiter)
  }

  /** One item of `fromstr`: split at `=`; anything but two parts makes the
      dictionary constructor raise `ValueError`. */
  function ParsePair(item: string): (r: Result<Segment>)
    ensures r.Ok? <==> |SplitOn(item, Equals)| == 2
    ensures r.Err? ==> r.error == ValueError
  {
    var parts := SplitOn(item, Equals);
    if |parts| != 2 then Err(ValueError) else Ok(Segment(parts[0], parts[1]))
  }

  function ParseAll(items: seq<string>): (r: Result<seq<Segment>>)
    ensures r.Ok? <==> forall i :: 0 <= i < |items| ==> ParsePair(items[i]).Ok?
    ensures r.Ok? ==> |r.value| == |items|
    ensures r.Ok? ==> forall i :: 0 <= i < |items| ==> r.value[i] == ParsePair(items[i]).value
  {
    if |items| == 0 then Ok([])
    else
      var first := ParsePair(items[0]);
      var rest := ParseAll(items[1..]);
      assert forall i :: 1 <= i < |items| ==> items[i] == items[1..][i - 1];
      if first.Err? then Err(first.error)
      else if rest.Err? then Err(rest.error)
      else Ok([first.value] + rest.value)
  }

  /** `fromstr`: split at `|`, each item at `=`, then build the dictionary. */
  function FromStr(s: string): (r: Result<Path>)
    ensures r.Ok? ==> DistinctKeys(r.value)
    ensures r.Ok? <==> ParseAll(SplitOn(s, Delimiter)).Ok?
  {
    var items := SplitOn(s, Delimiter);
    var pairs := ParseAll(items);
    if pairs.Err? then Err(pairs.error) else Ok(FromPairs(pairs.value))
  }

  /** No key or value contains `|` or `=`. */
  predicate Plain(p: Path)
  {
    forall i :: 0 <= i < |p| ==>
      '|' !in p[i].key && '|' !in p[i].value && '=' !in p[i].key && '=' !in p[i].value
  }

  lemma ParseSegment(s: Segment)
    requires '=' !in s.key && '=' !in s.value
    ensures ParsePair(SegmentStr(s)) == Ok(s)
  {
    assert Join([s.key, s.value], Equals) == SegmentStr(s) by {
      assert [s.key, s.value][1..] == [s.value];
    }
    assert Marker(Equals, 0);
    SplitJoin([s.key, s.value], Equals, 0);
  }

  /** The text of a non-empty path whose keys and values hold neither `|`
      nor `=` reads back as the same path. */
  lemma RoundTrip(p: Path)
    requires |p| > 0 && DistinctKeys(p) && Plain(p)
    ensures FromStr(Str(p)) == Ok(p)
  {
    var items := SegmentStrs(p);
    assert Free(items, '|') by {
      forall i | 0 <= i < |items| ensures '|' !in items[i] {
        assert items[i] == p[i].key + Equals + p[i].value;
      }
    }
    assert Marker(Delimiter, 0);
    SplitJoin(items, Delimiter, 0);
    forall i | 0 <= i < |items| ensures ParsePair(items[i]) == Ok(p[i]) {
      ParseSegment(p[i]);
    }
    assert ParseAll(items).value == p;
    FromDistinctPairs(p);
  }

  /** The empty path prints as the empty string, which does not read back. */
  lemma EmptyDoesNotRoundTrip()
    ensures FromStr(Str([])) == Err(ValueError)
  {
    assert SplitOn("", Delimiter) == [""];
    assert SplitOn("", Equals) == [""];
  }
}
