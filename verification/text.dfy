/** The string operations the driver uses to build its output file name:
    Python's `str.split` on a one-character separator, `str.join`, and the
    decimal rendering of a non-negative integer inside an f-string. */
module Text {

  /** Python's `s.split(d)` for a single-character separator `d`: the pieces
      between occurrences of `d`, always at least one (`"".split("-") == [""]`). */
  function Split(s: string, d: char): (parts: seq<string>)
    ensures |parts| >= 1
    ensures forall i :: 0 <= i < |parts| ==> d !in parts[i]
    ensures |parts| == 1 + CountOf(s, d)
  {
    if |s| == 0 then [""]
    else
      var rest := Split(s[1..], d);
      if s[0] == d then [""] + rest
      else [[s[0]] + rest[0]] + rest[1..]
  }

  /** Number of occurrences of `c` in `s`. */
  function CountOf(s: string, c: char): nat
  {
    if |s| == 0 then 0 else (if s[0] == c then 1 else 0) + CountOf(s[1..], c)
  }

  /** Python's `sep.join(parts)` for a one-character separator. */
  function Join(sep: char, parts: seq<string>): string
  {
    if |parts| == 0 then ""
    else if |parts| == 1 then parts[0]
    else parts[0] + [sep] + Join(sep, parts[1..])
  }

  /** Every `d` in `s` replaced by `e`, everything else kept in place. */
  function ReplaceChar(s: string, d: char, e: char): (r: string)
    ensures |r| == |s|
    ensures forall i :: 0 <= i < |s| ==> r[i] == (if s[i] == d then e else s[i])
  {
    if |s| == 0 then "" else [if s[0] == d then e else s[0]] + ReplaceChar(s[1..], d, e)
  }

  /** Joining the pieces of a split with another separator is exactly the
      character-wise replacement of the old separator by the new one. */
  lemma {:induction false} JoinSplitIsReplace(s: string, d: char, e: char)
    ensures Join(e, Split(s, d)) == ReplaceChar(s, d, e)
  {
    if |s| == 0 {
    } else {
      var rest := Split(s[1..], d);
      JoinSplitIsReplace(s[1..], d, e);
      if s[0] == d {
        assert Split(s, d) == [""] + rest;
        JoinCons(e, "", rest);
        assert Join(e, Split(s, d)) == "" + [e] + Join(e, rest);
      } else {
        assert Split(s, d) == [[s[0]] + rest[0]] + rest[1..];
        JoinHead(e, [s[0]], rest);
      }
    }
  }

  /** Joining a non-empty tail after a first piece puts one separator between them. */
  lemma JoinCons(sep: char, p: string, rest: seq<string>)
    requires |rest| >= 1
    ensures Join(sep, [p] + rest) == p + [sep] + Join(sep, rest)
  {
    assert ([p] + rest)[1..] == rest;
  }

  /** Gluing a prefix onto the first piece glues it onto the joined string. */
  lemma JoinHead(sep: char, pre: string, parts: seq<string>)
    requires |parts| >= 1
    ensures Join(sep, [pre + parts[0]] + parts[1..]) == pre + Join(sep, parts)
  {
    var ps := [pre + parts[0]] + parts[1..];
    if |parts| == 1 {
      assert ps == [pre + parts[0]];
    } else {
      assert ps[1..] == parts[1..];
      assert ps[0] == pre + parts[0];
    }
  }

  /** Splitting and joining with the same separator gives the string back. */
  lemma SplitJoinRoundTrip(s: string, d: char)
    ensures Join(d, Split(s, d)) == s
  {
    JoinSplitIsReplace(s, d, d);
    assert ReplaceChar(s, d, d) == s;
  }

  /** Decimal digits of a natural number, most significant first, as Python's
      `str(n)` (or an f-string) renders a non-negative `int`. */
  function Decimal(n: nat): (r: string)
    ensures |r| >= 1
    ensures forall i :: 0 <= i < |r| ==> IsDigit(r[i])
    ensures n >= 10 ==> r[0] != '0'
  {
    if n < 10 then [DigitChar(n)] else Decimal(n / 10) + [DigitChar(n % 10)]
  }

  predicate IsDigit(c: char)
  {
    '0' <= c <= '9'
  }

  function DigitChar(d: nat): (c: char)
    requires d < 10
    ensures IsDigit(c)
  {
    ['0', '1', '2', '3', '4', '5', '6', '7', '8', '9'][d]
  }

  function DigitValue(c: char): (d: nat)
    requires IsDigit(c)
    ensures d < 10 && DigitChar(d) == c
  {
    (c as int - '0' as int) as nat
  }

  /** Reads a string of decimal digits back into the number it denotes. */
  function ParseDecimal(s: string): nat
    requires forall i :: 0 <= i < |s| ==> IsDigit(s[i])
  {
    if |s| == 0 then 0 else 10 * ParseDecimal(s[..|s| - 1]) + DigitValue(s[|s| - 1])
  }

  /** The decimal rendering is read back as the same number. */
  lemma {:induction false} DecimalRoundTrip(n: nat)
    ensures ParseDecimal(Decimal(n)) == n
  {
    var s := Decimal(n);
    if n < 10 {
      assert s[..0] == "";
    } else {
      DecimalRoundTrip(n / 10);
      assert s[..|s| - 1] == Decimal(n / 10);
    }
  }

  /** Different numbers are rendered as different strings. */
  lemma DecimalInjective(m: nat, n: nat)
    requires Decimal(m) == Decimal(n)
    ensures m == n
  {
    DecimalRoundTrip(m);
    DecimalRoundTrip(n);
  }
}
