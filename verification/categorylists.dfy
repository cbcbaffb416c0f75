/** The plain `Category` class: an ordered list of distinct labels with
    disjointness-checked `add`, containment-checked `subtract`, and a text
    form that joins the labels with ` & `.
 */
module CategoryLists {
  import opened Outcomes
  import opened Text

  const Delimiter: string := " & "

  datatype Category = Category(labels: seq<string>)

  predicate NoDuplicates(s: seq<string>)
  {
    forall i, j :: 0 <= i < j < |s| ==> s[i] != s[j]
  }

  /** The constructor asserts that no label is given twice. */
  function New(labels: seq<string>): (r: Result<Category>)
    ensures r.Ok? <==> NoDuplicates(labels)
    ensures r.Ok? ==> r.value.labels == labels
    ensures r.Err? ==> r.error == AssertionError
  {
    if NoDuplicates(labels) then Ok(Category(labels)) else Err(AssertionError)
  }

  /** The right operand of `add`/`subtract`: a category, or an object of
      some other class. */
  datatype Operand = Cat(category: Category) | Foreign

  /** Some label of `b` is also a label of `a`. */
  predicate Shares(a: seq<string>, b: seq<string>)
  {
    exists i :: 0 <= i < |b| && b[i] in a
  }

  /** Every label of `b` is a label of `a`. */
  predicate Within(b: seq<string>, a: seq<string>)
  {
    forall i :: 0 <= i < |b| ==> b[i] in a
  }

  /** `add` as written: after the type guard and the overlap check it reads
      `self.value`, which the class does not have. */
  function AddAsWritten(a: Category, other: Operand): (r: Result<Category>)
    ensures r.Err?
    ensures other.Foreign? ==> r == Err(TypeError)
    ensures other.Cat? && !Shares(a.labels, other.category.labels) ==> r == Err(AttributeError)
  {
    if other.Foreign? then Err(TypeError)
    else if Shares(a.labels, other.category.labels) then Err(Overlap)
    else Err(AttributeError)
  }

  /** `add` with the labels of both operands passed to the constructor:
      the labels of `a` followed by those of `other`. */
  function Add(a: Category, other: Operand): (r: Result<Category>)
    ensures other.Foreign? ==> r == Err(TypeError)
    ensures other.Cat? && Shares(a.labels, other.category.labels) ==> r == Err(Overlap)
    ensures r.Ok? ==> r.value.labels == a.labels + other.category.labels
    ensures r.Ok? ==> NoDuplicates(r.value.labels)
    ensures (other.Cat? && NoDuplicates(a.labels) && NoDuplicates(other.category.labels) &&
             !Shares(a.labels, other.category.labels)) ==> r.Ok?
  {
    if other.Foreign? then Err(TypeError)
    else if Shares(a.labels, other.category.labels) then Err(Overlap)
    else
      var b := other.category.labels;
      assert NoDuplicates(a.labels) && NoDuplicates(b) ==> NoDuplicates(a.labels + b) by {
        if NoDuplicates(a.labels) && NoDuplicates(b) {
          forall i, j | 0 <= i < j < |a.labels + b| ensures (a.labels + b)[i] != (a.labels + b)[j] {
            if i < |a.labels| <= j {
              assert (a.labels + b)[j] == b[j - |a.labels|];
            }
          }
        }
      }
      New(a.labels + b)
  }

  /** The labels of `s` that are not in `b`, in their order in `s`. */
  function Without(s: seq<string>, b: seq<string>): (r: seq<string>)
    ensures forall x :: x in r <==> x in s && x !in b
    ensures |r| <= |s|
  {
    if |s| == 0 then []
    else if s[0] in b then Without(s[1..], b)
    else [s[0]] + Without(s[1..], b)
  }

  /** `x` is `y` with some elements left out, the rest in order. */
  predicate IsSubsequence(x: seq<string>, y: seq<string>)
    decreases |y|
  {
    |x| == 0
    || (|y| > 0 && (IsSubsequence(x, y[1..]) || (x[0] == y[0] && IsSubsequence(x[1..], y[1..]))))
  }

  lemma {:induction false} WithoutIsSubsequence(s: seq<string>, b: seq<string>)
    ensures IsSubsequence(Without(s, b), s)
    decreases |s|
  {
    if |s| > 0 {
      WithoutIsSubsequence(s[1..], b);
      if s[0] !in b {
        assert ([s[0]] + Without(s[1..], b))[1..] == Without(s[1..], b);
      }
    }
  }

  lemma {:induction false} WithoutNoDuplicates(s: seq<string>, b: seq<string>)
    requires NoDuplicates(s)
    ensures NoDuplicates(Without(s, b))
    decreases |s|
  {
    if |s| > 0 {
      assert NoDuplicates(s[1..]) by {
        forall i, j | 0 <= i < j < |s[1..]| ensures s[1..][i] != s[1..][j] {
          assert s[1..][i] == s[i + 1] && s[1..][j] == s[j + 1];
        }
      }
      WithoutNoDuplicates(s[1..], b);
      if s[0] !in b {
        var w := Without(s[1..], b);
        assert s[0] !in s[1..] by {
          forall k | 0 <= k < |s[1..]| ensures s[1..][k] != s[0] {
            assert s[1..][k] == s[k + 1];
          }
        }
        assert s[0] !in w;
        forall i, j | 0 <= i < j < |[s[0]] + w| ensures ([s[0]] + w)[i] != ([s[0]] + w)[j] {
          if i == 0 {
            assert ([s[0]] + w)[j] == w[j - 1];
          } else {
            assert ([s[0]] + w)[i] == w[i - 1] && ([s[0]] + w)[j] == w[j - 1];
          }
        }
      }
    }
  }

  /** `subtract` as written: after the checks it passes one list to the
      constructor, whose duplicate check then hashes that list and fails. */
  function SubtractAsWritten(a: Category, other: Operand): (r: Result<Category>)
    ensures r.Err?
    ensures other.Cat? && Within(other.category.labels, a.labels) ==> r == Err(TypeError)
  {
    if other.Foreign? then Err(TypeError)
    else if !Within(other.category.labels, a.labels) then Err(Overlap)
    else Err(TypeError)
  }

  /** `subtract` with the kept labels passed to the constructor: the labels
      of `a` that are not in `other`, in their original order. */
  function Subtract(a: Category, other: Operand): (r: Result<Category>)
    ensures other.Foreign? ==> r == Err(TypeError)
    ensures other.Cat? && !Within(other.category.labels, a.labels) ==> r == Err(Overlap)
    ensures r.Ok? ==> forall x :: x in r.value.labels <==> x in a.labels && x !in other.category.labels
    ensures r.Ok? ==> IsSubsequence(r.value.labels, a.labels)
    ensures other.Cat? && NoDuplicates(a.labels) && Within(other.category.labels, a.labels) ==> r.Ok?
  {
    if other.Foreign? then Err(TypeError)
    else if !Within(other.category.labels, a.labels) then Err(Overlap)
    else
      var kept := Without(a.labels, other.category.labels);
      WithoutIsSubsequence(a.labels, other.category.labels);
      assert NoDuplicates(a.labels) ==> NoDuplicates(kept) by {
        if NoDuplicates(a.labels) {
          WithoutNoDuplicates(a.labels, other.category.labels);
        }
      }
      New(kept)
  }

  /** Adding then subtracting a disjoint category gives back the first one. */
  lemma AddThenSubtract(a: Category, b: Category)
    requires NoDuplicates(a.labels) && NoDuplicates(b.labels) && !Shares(a.labels, b.labels)
    ensures Add(a, Cat(b)).Ok?
    ensures Subtract(Add(a, Cat(b)).value, Cat(b)) == Ok(a)
  {
    var s := Add(a, Cat(b)).value;
    assert s.labels == a.labels + b.labels;
    assert Within(b.labels, s.labels) by {
      forall i | 0 <= i < |b.labels| ensures b.labels[i] in s.labels {
        assert s.labels[|a.labels| + i] == b.labels[i];
      }
    }
    WithoutAppended(a.labels, b.labels);
  }

  /** Removing the labels of `b` from `a + b` leaves `a`, when they share none. */
  lemma {:induction false} WithoutAppended(a: seq<string>, b: seq<string>)
    requires !Shares(a, b)
    ensures Without(a + b, b) == a
    decreases |a|
  {
    if |a| == 0 {
      assert a + b == b;
      WithoutCovered(b, b);
    } else {
      assert (a + b)[0] == a[0] && (a + b)[1..] == a[1..] + b;
      assert a[0] !in b;
      assert !Shares(a[1..], b) by {
        forall i | 0 <= i < |b| ensures b[i] !in a[1..] {
          assert b[i] !in a;
        }
      }
      WithoutAppended(a[1..], b);
    }
  }

  /** Nothing is left of a list all of whose labels are removed. */
  lemma {:induction false} WithoutCovered(s: seq<string>, b: seq<string>)
    requires forall x :: x in s ==> x in b
    ensures Without(s, b) == []
    decreases |s|
  {
    if |s| > 0 {
      assert s[0] in b;
      WithoutCovered(s[1..], b);
    }
  }

  /** `__str__`: the labels joined by ` & `. */
  function Str(c: Category): string
  {
    Join(c.labels, Delimiter)
  }

  /** `fromstr`: the text split at ` & `, passed to the constructor. */
  function FromStr(s: string): (r: Result<Category>)
    ensures r.Ok? ==> |r.value.labels| > 0
  {
    New(SplitOn(s, Delimiter))
  }

  /** The text of a non-empty category whose labels hold no `&` is read
      back unchanged. */
  lemma RoundTrip(c: Category)
    requires |c.labels| > 0 && NoDuplicates(c.labels) && Free(c.labels, '&')
    ensures FromStr(Str(c)) == Ok(c)
  {
    assert Marker(Delimiter, 1);
    SplitJoin(c.labels, Delimiter, 1);
  }

  /** Excluding ` & ` from the labels is not enough: a label ending in ` &`
      runs into the following delimiter, and the text splits elsewhere. */
  lemma TrailingAmpersandSplitsElsewhere()
    ensures SplitOn(Join(["a &", "b"], Delimiter), Delimiter) == ["a", "& b"]
  {
    var s := Join(["a &", "b"], Delimiter);
    assert ["a &", "b"][1..] == ["b"];
    assert s == "a & & b";
    assert SplitOn(" b", Delimiter) == [" b"];
    assert SplitOn("& b", Delimiter) == ["& b"] by {
      assert "& b"[..3][0] != Delimiter[0];
      assert "& b"[1..] == " b";
      assert ['&'] + " b" == "& b";
    }
    assert SplitOn(" & & b", Delimiter) == ["", "& b"] by {
      assert " & & b"[..3] == Delimiter;
      assert " & & b"[3..] == "& b";
    }
    assert s[..3][1] != Delimiter[1];
    assert s[1..] == " & & b";
    assert ['a'] + "" == "a";
  }
}
