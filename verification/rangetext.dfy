/** The text form of ranges and numbers: `Range.__str__`, `Range.fromstr`,
    `Num.fromstr` and the number scanner `_numfromstr` behind them.

    `_numfromstr` runs `re.findall` with the pattern `[-+]?\d*\.\d+|\d+`;
    the scanner below performs that search: at each position it tries the
    decimal alternative, then the digit-run alternative, and otherwise moves
    one character on. The `signed` flag adds a sign to the digit-run
    alternative (`[-+]?\d*\.\d+|[-+]?\d+`), the pattern the sign handling
    of the decimal alternative points to.
 */
module RangeText {
  import opened Outcomes
  import opened Ranges
  import opened Text

  const Delimiter: string := " - "

  /** The heading written in front of a range of each direction. */
  function Heading(d: Direction): string
  {
    match d
    case Upper => ">"
    case Lower => "<"
    case Unbounded => "..."
    case _ => ""
  }

  // ------------------------------------------------------------ digits

  /** `str(i)` for an integer. */
  function IntStr(i: int): string
  {
    if i < 0 then "-" + NatStr(-i) else NatStr(i)
  }

  // ----------------------------------------------------------- scanner

  predicate IsSign(c: char)
  {
    c == '-' || c == '+'
  }

  /** Length of a match of `[-+]?\d*\.\d+` at the start of `s`. */
  function DecimalMatch(s: string): (m: Option<nat>)
    ensures m.Some? ==> 0 < m.value <= |s|
  {
    var j := if |s| > 0 && IsSign(s[0]) then 1 else 0;
    var k := j + DigitRun(s[j..]);
    if k + 1 < |s| && s[k] == '.' && IsDigit(s[k + 1]) then Some(k + 1 + DigitRun(s[k + 1..]))
    else None
  }

  /** Length of a match of `\d+` (or `[-+]?\d+` when `signed`) at the start of `s`. */
  function IntegerMatch(s: string, signed: bool): (m: Option<nat>)
    ensures m.Some? ==> 0 < m.value <= |s|
  {
    if |s| > 0 && IsDigit(s[0]) then Some(DigitRun(s))
    else if signed && |s| > 1 && IsSign(s[0]) && IsDigit(s[1]) then Some(1 + DigitRun(s[1..]))
    else None
  }

  /** `re.findall`: the non-overlapping matches, leftmost first. */
  function Tokens(s: string, signed: bool): seq<string>
    decreases |s|
  {
    if |s| == 0 then []
    else match DecimalMatch(s)
      case Some(n) => [s[..n]] + Tokens(s[n..], signed)
      case None =>
        match IntegerMatch(s, signed)
        case Some(n) => [s[..n]] + Tokens(s[n..], signed)
        case None => Tokens(s[1..], signed)
  }

  predicate AllZeros(s: string)
  {
    forall i :: 0 <= i < |s| ==> s[i] == '0'
  }

  /** `_fixnumtype`: a matched number as an integer. A decimal with a zero
      fraction becomes an integer as in the source; any other decimal stays
      a float there, which the model does not represent. */
  function FixNum(tok: string): (r: Result<int>)
  {
    var neg := |tok| > 0 && tok[0] == '-';
    var body := if |tok| > 0 && IsSign(tok[0]) then tok[1..] else tok;
    var k := DigitRun(body);
    var whole: int := DigitsValue(body[..k]);
    var v := if neg then -whole else whole;
    if k == |body| then Ok(v)
    else if body[k] == '.' && AllZeros(body[k + 1..]) then Ok(v)
    else Err(Unmodelled)
  }

  function FixAll(toks: seq<string>): (r: Result<seq<Option<int>>>)
    ensures r.Ok? ==> |r.value| == |toks|
  {
    if |toks| == 0 then Ok([])
    else
      var v :- FixNum(toks[0]);
      var rest :- FixAll(toks[1..]);
      Ok([Some(v)] + rest)
  }

  /** `_numfromstr`: every number found, or a single `None` when there is none. */
  function NumsFromStr(s: string, signed: bool): (r: Result<seq<Option<int>>>)
    ensures r.Ok? ==> |r.value| > 0
  {
    var toks := Tokens(s, signed);
    if |toks| == 0 then Ok([None]) else FixAll(toks)
  }

  /** `pat` occurs in `s` (Python's `pat in s` on strings). */
  predicate Occurs(pat: string, s: string)
    decreases |s|
  {
    |s| >= |pat| && (s[..|pat|] == pat || (|s| > 0 && Occurs(pat, s[1..])))
  }

  // ------------------------------------------------------------ ranges

  /** The present bounds, lower first. */
  function PresentBounds(r: Range): seq<string>
  {
    (if r.lower.Some? then [IntStr(r.lower.value)] else [])
    + (if r.upper.Some? then [IntStr(r.upper.value)] else [])
  }

  /** `Range.__str__`: the heading, then the present bounds joined by ` - `. */
  function Str(r: Range): string
  {
    Heading(DirectionOf(r)) + Join(PresentBounds(r), Delimiter)
  }

  /** `Range.fromstr`; `signed` selects the scanner. A `>` heading appends an
      absent upper bound, `<` prepends an absent lower bound, `...` makes
      both absent, and a single number is used for both bounds. */
  function FromStrWith(s: string, signed: bool): (r: Result<Range>)
    ensures r.Ok? && '>' in s ==> r.value.upper.None?
    ensures r.Ok? && '>' !in s && '<' in s ==> r.value.lower.None?
    ensures NumsFromStr(s, signed).Err? ==> r.Err? && r.error == NumsFromStr(s, signed).error
    ensures NumsFromStr(s, signed).Ok? && r.Err? ==> r.error == AssertionError
    // a heading leaves room for exactly one number
    ensures var n := NumsFromStr(s, signed);
            n.Ok? && '>' in s ==> (r.Ok? <==> |n.value| == 1) && (r.Ok? ==> r.value == Range(n.value[0], None))
    ensures var n := NumsFromStr(s, signed);
            n.Ok? && '>' !in s && '<' in s ==> (r.Ok? <==> |n.value| == 1) && (r.Ok? ==> r.value == Range(None, n.value[0]))
    ensures NumsFromStr(s, signed).Ok? && '>' !in s && '<' !in s && Occurs("...", s) ==> r == Ok(Range(None, None))
    // without a heading: one number is both bounds, two are lower and upper, more are refused
    ensures var n := NumsFromStr(s, signed);
            n.Ok? && '>' !in s && '<' !in s && !Occurs("...", s) ==>
              (r.Ok? <==> |n.value| <= 2) &&
              (|n.value| == 1 ==> r == Ok(Range(n.value[0], n.value[0]))) &&
              (|n.value| == 2 ==> r == Ok(Range(n.value[0], n.value[1])))
  {
    var nums :- NumsFromStr(s, signed);
    var headed :=
      if '>' in s then nums + [None]
      else if '<' in s then [None] + nums
      else if Occurs("...", s) then [None, None]
      else nums;
    var pair := if |headed| == 1 then headed + headed else headed;
    if |pair| != 2 then Err(AssertionError) else Ok(Range(pair[0], pair[1]))
  }

  /** `Range.fromstr` as written. */
  function FromStr(s: string): Result<Range>
  {
    FromStrWith(s, false)
  }

  /** `Range.fromstr` with the signed scanner. */
  function FromStrSigned(s: string): Result<Range>
  {
    FromStrWith(s, true)
  }

  /** `Num.fromstr`: exactly one number must be found. */
  function NumFromStr(s: string): (r: Result<int>)
    ensures r.Ok? ==> NumsFromStr(s, false) == Ok([Some(r.value)])
    ensures forall v :: NumsFromStr(s, false) == Ok([Some(v)]) ==> r == Ok(v)
    ensures NumsFromStr(s, false).Ok? && r.Err? ==> r.error == AssertionError
  {
    var nums :- NumsFromStr(s, false);
    if |nums| != 1 || nums[0].None? then Err(AssertionError)
    else
      assert nums == [nums[0]];
      Ok(nums[0].value)
  }

  // ------------------------------------------------------- scanner facts

  /** A character that neither starts nor continues a number. */
  predicate Inert(c: char)
  {
    !IsDigit(c) && !IsSign(c) && c != '.'
  }

  /** Text that cannot extend a number written before it. */
  predicate Stops(rest: string)
  {
    |rest| == 0 || (!IsDigit(rest[0]) && rest[0] != '.')
  }

  /** One scanner step that takes a digit-run match. */
  lemma TokensTake(s: string, signed: bool, n: nat)
    requires |s| > 0 && DecimalMatch(s).None? && IntegerMatch(s, signed) == Some(n)
    ensures Tokens(s, signed) == [s[..n]] + Tokens(s[n..], signed)
  {
  }

  /** One scanner step that finds no match and moves on. */
  lemma TokensSkip(s: string, signed: bool)
    requires |s| > 0 && DecimalMatch(s).None? && IntegerMatch(s, signed).None?
    ensures Tokens(s, signed) == Tokens(s[1..], signed)
  {
  }

  /** A run of digits is one token, whatever non-number text follows. */
  lemma TokensDigits(ds: string, rest: string, signed: bool)
    requires |ds| > 0 && AllDigits(ds) && Stops(rest)
    ensures Tokens(ds + rest, signed) == [ds] + Tokens(rest, signed)
  {
    var s := ds + rest;
    DigitRunOf(ds, rest);
    assert s[0] == ds[0];
    assert s[0..] == s;
    assert DecimalMatch(s).None?;
    assert IntegerMatch(s, signed) == Some(|ds|);
    TokensTake(s, signed, |ds|);
    assert s[..|ds|] == ds;
    assert s[|ds|..] == rest;
  }

  /** A minus sign before a run of digits: the signed scanner keeps the sign
      in the token, the as-written scanner skips it and keeps the digits. */
  lemma TokensMinusDigits(ds: string, rest: string, signed: bool)
    requires |ds| > 0 && AllDigits(ds) && Stops(rest)
    ensures signed ==> Tokens("-" + ds + rest, signed) == ["-" + ds] + Tokens(rest, signed)
    ensures !signed ==> Tokens("-" + ds + rest, signed) == [ds] + Tokens(rest, signed)
  {
    var s := "-" + ds + rest;
    assert s[1..] == ds + rest;
    DigitRunOf(ds, rest);
    assert DecimalMatch(s).None?;
    if signed {
      assert IntegerMatch(s, signed) == Some(1 + |ds|);
      TokensTake(s, signed, 1 + |ds|);
      assert s[..1 + |ds|] == "-" + ds;
      assert s[1 + |ds|..] == rest;
    } else {
      assert IntegerMatch(s, signed).None?;
      TokensSkip(s, signed);
      TokensDigits(ds, rest, signed);
    }
  }

  /** An inert character is skipped. */
  lemma TokensInert(c: char, rest: string, signed: bool)
    requires Inert(c)
    ensures Tokens([c] + rest, signed) == Tokens(rest, signed)
  {
    var s := [c] + rest;
    assert s[1..] == rest;
    assert DecimalMatch(s).None?;
    TokensSkip(s, signed);
  }

  /** The delimiter between two bounds yields no token when a number follows. */
  lemma TokensDelimiter(rest: string, signed: bool)
    requires |rest| > 0 && (IsDigit(rest[0]) || rest[0] == '-')
    ensures Tokens(Delimiter + rest, signed) == Tokens(rest, signed)
  {
    var t := ['-'] + ([' '] + rest);
    assert Delimiter + rest == [' '] + t;
    TokensInert(' ', t, signed);
    assert t[1..] == [' '] + rest;
    assert DecimalMatch(t).None?;
    assert IntegerMatch(t, signed).None?;
    TokensSkip(t, signed);
    TokensInert(' ', rest, signed);
  }

  /** Three dots hold no number. */
  lemma TokensDots(signed: bool)
    ensures Tokens("...", signed) == []
  {
    assert "..."[1..] == ".." && ".."[1..] == "." && "."[1..] == "";
    assert DecimalMatch("...").None? && IntegerMatch("...", signed).None?;
    assert DecimalMatch("..").None? && IntegerMatch("..", signed).None?;
    assert DecimalMatch(".").None? && IntegerMatch(".", signed).None?;
    TokensSkip("...", signed);
    TokensSkip("..", signed);
    TokensSkip(".", signed);
  }

  lemma FixDigits(ds: string)
    requires AllDigits(ds)
    ensures FixNum(ds) == Ok(DigitsValue(ds))
    ensures FixNum("-" + ds) == Ok(-(DigitsValue(ds) as int))
  {
    DigitRunOf(ds, "");
    assert ds + "" == ds;
    assert ds[..|ds|] == ds;
    assert ("-" + ds)[1..] == ds;
  }

  lemma FixInt(i: int)
    ensures FixNum(IntStr(i)) == Ok(i)
  {
    if i < 0 {
      NatStrValue(-i);
      FixDigits(NatStr(-i));
    } else {
      NatStrValue(i);
      FixDigits(NatStr(i));
    }
  }

  function Abs(i: int): nat
  {
    if i < 0 then -i else i
  }

  /** The value the scanner reads from the text of `i`: `i` itself for the
      signed scanner, its absolute value for the as-written one. */
  function ReadValue(i: int, signed: bool): int
  {
    if signed then i else Abs(i)
  }

  /** The token the scanner finds in the text of `i`. */
  function TokenOf(i: int, signed: bool): string
  {
    if signed then IntStr(i) else NatStr(Abs(i))
  }

  /** The text of an integer is one token, read as `ReadValue`. */
  lemma TokensInt(i: int, rest: string, signed: bool)
    requires Stops(rest)
    ensures Tokens(IntStr(i) + rest, signed) == [TokenOf(i, signed)] + Tokens(rest, signed)
    ensures FixNum(TokenOf(i, signed)) == Ok(ReadValue(i, signed))
  {
    if i < 0 {
      TokensNegative(i, rest, signed);
    } else {
      var ds := NatStr(i);
      assert IntStr(i) == ds && TokenOf(i, signed) == ds && ReadValue(i, signed) == i;
      TokensDigits(ds, rest, signed);
      NatStrValue(i);
      FixDigits(ds);
    }
  }

  lemma TokensNegative(i: int, rest: string, signed: bool)
    requires i < 0 && Stops(rest)
    ensures Tokens(IntStr(i) + rest, signed) == [TokenOf(i, signed)] + Tokens(rest, signed)
    ensures FixNum(TokenOf(i, signed)) == Ok(ReadValue(i, signed))
  {
    var ds := NatStr(-i);
    assert IntStr(i) == "-" + ds;
    assert IntStr(i) + rest == "-" + ds + rest;
    TokensMinusDigits(ds, rest, signed);
    NatStrValue(-i);
    FixDigits(ds);
    if signed {
      assert TokenOf(i, signed) == "-" + ds && ReadValue(i, signed) == i;
    } else {
      assert TokenOf(i, signed) == ds && ReadValue(i, signed) == -i;
    }
  }

  lemma IntStrFree(i: int)
    ensures '>' !in IntStr(i) && '<' !in IntStr(i) && '.' !in IntStr(i)
    ensures |IntStr(i)| > 0 && (IsDigit(IntStr(i)[0]) || IntStr(i)[0] == '-')
  {
    var ds := NatStr(if i < 0 then -i else i);
    assert forall c :: c in ds ==> IsDigit(c);
  }

  lemma NoDots(s: string)
    requires '.' !in s
    ensures !Occurs("...", s)
    decreases |s|
  {
    if |s| >= 3 {
      assert s[..3][0] == s[0];
      NoDots(s[1..]);
    }
  }

  lemma JoinTwo(x: string, y: string)
    ensures Join([x, y], Delimiter) == x + Delimiter + y
  {
    assert [x, y][1..] == [y];
  }

  /** What `fromstr` makes of text holding the given numbers and headings. */
  lemma ReadBack(s: string, signed: bool, toks: seq<string>, vals: seq<int>)
    requires Tokens(s, signed) == toks && |toks| == |vals| <= 2
    requires forall k :: 0 <= k < |toks| ==> FixNum(toks[k]) == Ok(vals[k])
    ensures |vals| == 0 && '>' !in s && '<' !in s && Occurs("...", s) ==>
      FromStrWith(s, signed) == Ok(Range(None, None))
    ensures |vals| == 1 && '>' in s ==> FromStrWith(s, signed) == Ok(Range(Some(vals[0]), None))
    ensures |vals| == 1 && '>' !in s && '<' in s ==> FromStrWith(s, signed) == Ok(Range(None, Some(vals[0])))
    ensures |vals| == 1 && '>' !in s && '<' !in s && !Occurs("...", s) ==>
      FromStrWith(s, signed) == Ok(Range(Some(vals[0]), Some(vals[0])))
    ensures |vals| == 2 && '>' !in s && '<' !in s && !Occurs("...", s) ==>
      FromStrWith(s, signed) == Ok(Range(Some(vals[0]), Some(vals[1])))
  {
    if |vals| == 1 {
      assert FixNum(toks[0]) == Ok(vals[0]);
      assert toks == [toks[0]] + [];
      FixAllCons(toks[0], vals[0], [], []);
    } else if |vals| == 2 {
      assert FixNum(toks[0]) == Ok(vals[0]);
      assert FixNum(toks[1]) == Ok(vals[1]);
      FixAllCons(toks[1], vals[1], [], []);
      assert [toks[1]] + [] == [toks[1]];
      assert [Some(vals[1])] + [] == [Some(vals[1])];
      assert toks == [toks[0]] + [toks[1]];
      FixAllCons(toks[0], vals[0], [toks[1]], [Some(vals[1])]);
    }
  }

  lemma FixAllCons(t: string, v: int, ts: seq<string>, vs: seq<Option<int>>)
    requires FixNum(t) == Ok(v) && FixAll(ts) == Ok(vs)
    ensures FixAll([t] + ts) == Ok([Some(v)] + vs)
  {
    assert ([t] + ts)[0] == t;
    assert ([t] + ts)[1..] == ts;
  }

  function ReadBound(b: Option<int>, signed: bool): Option<int>
  {
    if b.Some? then Some(ReadValue(b.value, signed)) else None
  }

  lemma ReadUnbounded(signed: bool)
    ensures FromStrWith(Str(Range(None, None)), signed) == Ok(Range(None, None))
  {
    assert Str(Range(None, None)) == "...";
    TokensDots(signed);
    assert Occurs("...", "...");
    ReadBack("...", signed, [], []);
  }

  lemma ReadLowerOpen(u: int, signed: bool)
    ensures FromStrWith(Str(Range(None, Some(u))), signed) == Ok(Range(None, Some(ReadValue(u, signed))))
  {
    IntStrFree(u);
    var s := ['<'] + (IntStr(u) + "");
    assert Str(Range(None, Some(u))) == s;
    TokensInert('<', IntStr(u) + "", signed);
    TokensInt(u, "", signed);
    assert '<' in s && '>' !in s;
    ReadBack(s, signed, [TokenOf(u, signed)], [ReadValue(u, signed)]);
  }

  lemma ReadUpperOpen(l: int, signed: bool)
    ensures FromStrWith(Str(Range(Some(l), None)), signed) == Ok(Range(Some(ReadValue(l, signed)), None))
  {
    IntStrFree(l);
    var s := ['>'] + (IntStr(l) + "");
    assert Str(Range(Some(l), None)) == s;
    TokensInert('>', IntStr(l) + "", signed);
    TokensInt(l, "", signed);
    assert '>' in s;
    ReadBack(s, signed, [TokenOf(l, signed)], [ReadValue(l, signed)]);
  }

  lemma StrBounded(l: int, u: int)
    ensures Str(Range(Some(l), Some(u))) == IntStr(l) + (Delimiter + IntStr(u))
  {
    JoinTwo(IntStr(l), IntStr(u));
    assert PresentBounds(Range(Some(l), Some(u))) == [IntStr(l), IntStr(u)];
  }

  lemma TokensBounded(l: int, u: int, signed: bool)
    ensures Tokens(IntStr(l) + (Delimiter + IntStr(u)), signed) == [TokenOf(l, signed), TokenOf(u, signed)]
  {
    IntStrFree(u);
    TokensInt(l, Delimiter + IntStr(u), signed);
    TokensDelimiter(IntStr(u), signed);
    TokensInt(u, "", signed);
    assert IntStr(u) + "" == IntStr(u);
    assert Tokens("", signed) == [];
  }

  lemma ReadBounded(l: int, u: int, signed: bool)
    ensures FromStrWith(Str(Range(Some(l), Some(u))), signed)
         == Ok(Range(Some(ReadValue(l, signed)), Some(ReadValue(u, signed))))
  {
    StrBounded(l, u);
    var s := IntStr(l) + (Delimiter + IntStr(u));
    TokensBounded(l, u, signed);
    FixToken(l, signed);
    FixToken(u, signed);
    BoundedTextPlain(l, u);
    ReadBackTwo(s, signed, TokenOf(l, signed), TokenOf(u, signed), ReadValue(l, signed), ReadValue(u, signed));
  }

  lemma FixToken(i: int, signed: bool)
    ensures FixNum(TokenOf(i, signed)) == Ok(ReadValue(i, signed))
  {
    TokensInt(i, "", signed);
  }

  /** `ReadBack` for the text of a range with both bounds. */
  lemma ReadBackTwo(s: string, signed: bool, t0: string, t1: string, v0: int, v1: int)
    requires Tokens(s, signed) == [t0, t1]
    requires FixNum(t0) == Ok(v0) && FixNum(t1) == Ok(v1)
    requires '>' !in s && '<' !in s && !Occurs("...", s)
    ensures FromStrWith(s, signed) == Ok(Range(Some(v0), Some(v1)))
  {
    var toks := [t0, t1];
    var vals := [v0, v1];
    assert forall k :: 0 <= k < |toks| ==> FixNum(toks[k]) == Ok(vals[k]);
    ReadBack(s, signed, toks, vals);
  }

  /** The text of a bounded range has no heading and no dots. */
  lemma BoundedTextPlain(l: int, u: int)
    ensures var s := IntStr(l) + (Delimiter + IntStr(u));
      '>' !in s && '<' !in s && !Occurs("...", s)
  {
    IntStrFree(l);
    IntStrFree(u);
    var s := IntStr(l) + (Delimiter + IntStr(u));
    assert '.' !in s && '>' !in s && '<' !in s;
    NoDots(s);
  }

  /** What either scanner reads back from the text of any range. */
  lemma ReadStr(r: Range, signed: bool)
    ensures FromStrWith(Str(r), signed) == Ok(Range(ReadBound(r.lower, signed), ReadBound(r.upper, signed)))
  {
    match (r.lower, r.upper)
    case (None, None) => ReadUnbounded(signed);
    case (None, Some(u)) => ReadLowerOpen(u, signed);
    case (Some(l), None) => ReadUpperOpen(l, signed);
    case (Some(l), Some(u)) => ReadBounded(l, u, signed);
  }

  // ------------------------------------------------------- round trips

  /** The signed scanner reads back the text of every range. */
  lemma SignedRoundTrip(r: Range)
    ensures FromStrSigned(Str(r)) == Ok(r)
  {
    ReadStr(r, true);
  }

  /** As written, the text of a range whose bounds are absent or
      non-negative is read back unchanged. */
  lemma RoundTrip(r: Range)
    requires r.lower.Some? ==> r.lower.value >= 0
    requires r.upper.Some? ==> r.upper.value >= 0
    ensures FromStr(Str(r)) == Ok(r)
  {
    ReadStr(r, false);
  }

  /** As written, a negative lower bound loses its sign: the digit-run
      alternative of the pattern has no sign, so `-5 - 3` reads back as `[5, 3]`. */
  lemma NegativeBoundLosesSign(l: int, u: nat)
    requires l < 0
    ensures FromStr(Str(Range(Some(l), Some(u)))) == Ok(Range(Some(-l), Some(u)))
  {
    ReadStr(Range(Some(l), Some(u)), false);
  }

  /** The text of one non-negative integer reads as a range with that
      number as both bounds. */
  lemma SingleNumberIsBothBounds(n: nat, signed: bool)
    ensures FromStrWith(NatStr(n), signed) == Ok(Range(Some(n), Some(n)))
  {
    var s := NatStr(n);
    assert IntStr(n) == s && IntStr(n) + "" == s;
    TokensInt(n, "", signed);
    assert Tokens("", signed) == [];
    assert TokenOf(n, signed) == s && ReadValue(n, signed) == n;
    IntStrFree(n);
    NoDots(s);
    ReadBack(s, signed, [s], [n]);
  }

  /** Three or more numbers without a heading are refused. */
  lemma ThreeNumbersRefused(s: string, signed: bool)
    requires NumsFromStr(s, signed).Ok? && |NumsFromStr(s, signed).value| >= 3
    requires '>' !in s && '<' !in s && !Occurs("...", s)
    ensures FromStrWith(s, signed) == Err(AssertionError)
  {
  }

  /** `Num.fromstr` reads back the text of a natural number. */
  lemma NumRoundTrip(n: nat)
    ensures NumFromStr(NatStr(n)) == Ok(n)
  {
    TokensDigits(NatStr(n), "", false);
    assert NatStr(n) + "" == NatStr(n);
    NatStrValue(n);
    FixDigits(NatStr(n));
    FixAllCons(NatStr(n), n, [], []);
    assert [NatStr(n)] + [] == [NatStr(n)];
  }
}
