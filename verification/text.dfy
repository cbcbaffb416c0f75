/** Python's `sep.join(parts)` and `s.split(sep)` on strings, and the
    condition under which splitting undoes joining.
 */
module Text {

  /** `sep.join(parts)`: the parts with one separator between neighbours. */
  function Join(parts: seq<string>, sep: string): string
  {
    if |parts| == 0 then ""
    else if |parts| == 1 then parts[0]
    else parts[0] + sep + Join(parts[1..], sep)
  }

  /** `s.split(sep)` for a non-empty separator: cut at every occurrence of
      `sep`, scanning from the left, occurrences never overlapping. */
  function SplitOn(s: string, sep: string): (r: seq<string>)
    requires |sep| > 0
    ensures |r| > 0
    decreases |s|
  {
    if |s| < |sep| then [s]
    else if s[..|sep|] == sep then [""] + SplitOn(s[|sep|..], sep)
    else
      var t := SplitOn(s[1..], sep);
      [[s[0]] + t[0]] + t[1..]
  }

  /** The separator has a character at index `m` that occurs nowhere else
      in it (true of `|`, `=` and ` & ` with `m` = 0, 0 and 1). */
  predicate Marker(sep: string, m: nat)
  {
    m < |sep| && forall j :: 0 <= j < |sep| && j != m ==> sep[j] != sep[m]
  }

  /** No part contains the character `c`. */
  predicate Free(parts: seq<string>, c: char)
  {
    forall i :: 0 <= i < |parts| ==> c !in parts[i]
  }

  /** A part free of the marker character is cut off intact in front of a separator. */
  lemma {:induction false} SplitPartThenSep(part: string, sep: string, m: nat, rest: string)
    requires Marker(sep, m) && sep[m] !in part
    ensures SplitOn(part + sep + rest, sep) == [part] + SplitOn(rest, sep)
    decreases |part|
  {
    var s := part + sep + rest;
    if |part| == 0 {
      assert s == sep + rest;
      assert s[..|sep|] == sep;
      assert s[|sep|..] == rest;
    } else {
      assert s[..|sep|][m] != sep[m] by {
        if m < |part| {
          assert s[..|sep|][m] == part[m];
        } else {
          assert s[..|sep|][m] == sep[m - |part|];
        }
      }
      var tail := part[1..] + sep + rest;
      assert part == [part[0]] + part[1..];
      assert s == [part[0]] + tail;
      assert s[1..] == tail;
      SplitPartThenSep(part[1..], sep, m, rest);
      assert [s[0]] + part[1..] == part;
    }
  }

  /** A string free of the marker character is not split at all. */
  lemma {:induction false} SplitNoSep(part: string, sep: string, m: nat)
    requires Marker(sep, m) && sep[m] !in part
    ensures SplitOn(part, sep) == [part]
    decreases |part|
  {
    if |part| >= |sep| {
      assert part[..|sep|][m] != sep[m] by {
        assert part[..|sep|][m] == part[m];
      }
      SplitNoSep(part[1..], sep, m);
      assert [part[0]] + part[1..] == part;
    }
  }

  /** Splitting undoes joining when no part contains the separator's marker character. */
  lemma {:induction false} SplitJoin(parts: seq<string>, sep: string, m: nat)
    requires |parts| > 0 && Marker(sep, m) && Free(parts, sep[m])
    ensures SplitOn(Join(parts, sep), sep) == parts
    decreases |parts|
  {
    if |parts| == 1 {
      SplitNoSep(parts[0], sep, m);
    } else {
      assert Free(parts[1..], sep[m]) by {
        forall i | 0 <= i < |parts[1..]| ensures sep[m] !in parts[1..][i] {
          assert parts[1..][i] == parts[i + 1];
        }
      }
      assert sep[m] !in parts[0];
      SplitPartThenSep(parts[0], sep, m, Join(parts[1..], sep));
      SplitJoin(parts[1..], sep, m);
      assert parts == [parts[0]] + parts[1..];
    }
  }

  // ------------------------------------------------------------ digits

  predicate IsDigit(c: char)
  {
    '0' <= c <= '9'
  }

  predicate AllDigits(s: string)
  {
    forall i :: 0 <= i < |s| ==> IsDigit(s[i])
  }

  function DigitChar(d: nat): char
    requires d < 10
  {
    ('0' as int + d) as char
  }

  /** `str(n)` for a natural number: decimal digits, no leading zeros. */
  function NatStr(n: nat): (s: string)
    ensures |s| > 0 && AllDigits(s)
  {
    if n < 10 then [DigitChar(n)] else NatStr(n / 10) + [DigitChar(n % 10)]
  }

  /** The value of a string of decimal digits. */
  function DigitsValue(s: string): nat
    requires AllDigits(s)
  {
    if |s| == 0 then 0
    else DigitsValue(s[..|s| - 1]) * 10 + (s[|s| - 1] as int - '0' as int)
  }

  lemma {:induction false} NatStrValue(n: nat)
    ensures DigitsValue(NatStr(n)) == n
  {
    if n >= 10 {
      var s := NatStr(n);
      assert s[..|s| - 1] == NatStr(n / 10);
      NatStrValue(n / 10);
    }
  }

  /** Length of the run of digits at the start of `s`. */
  function DigitRun(s: string): (n: nat)
    ensures n <= |s|
    ensures AllDigits(s[..n])
    ensures n < |s| ==> !IsDigit(s[n])
  {
    if |s| == 0 || !IsDigit(s[0]) then 0
    else
      var m := DigitRun(s[1..]);
      assert s[..1 + m] == [s[0]] + s[1..][..m];
      1 + m
  }

  /** A digit run followed by a non-digit is measured exactly. */
  lemma {:induction false} DigitRunOf(ds: string, rest: string)
    requires AllDigits(ds)
    requires |rest| == 0 || !IsDigit(rest[0])
    ensures DigitRun(ds + rest) == |ds|
    decreases |ds|
  {
    if |ds| > 0 {
      assert (ds + rest)[1..] == ds[1..] + rest;
      DigitRunOf(ds[1..], rest);
    } else {
      assert ds + rest == rest;
    }
  }
}
