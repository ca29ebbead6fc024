/** Decimal text of non-negative integers, as the application produces it with
    JavaScript template literals and `toString()`, pads it with `padStart(2, '0')`
    and reads it back with `parseInt`. Every formatter of the model is built from
    these few pieces, so their properties are proved once, here. */
module Text {

  datatype Option<T> = None | Some(value: T)

  predicate IsDigit(c: char) { '0' <= c <= '9' }

  predicate AllDigits(s: string) { forall i :: 0 <= i < |s| ==> IsDigit(s[i]) }

  function DigitValue(c: char): (d: nat)
    requires IsDigit(c)
    ensures d < 10
  {
    c as int - '0' as int
  }

  function DigitChar(d: nat): (c: char)
    requires d < 10
    ensures IsDigit(c) && DigitValue(c) == d
  {
    ('0' as int + d) as char
  }

  /** The number a string of decimal digits denotes; leading zeros count for nothing. */
  function DigitsValue(s: string): nat
    requires AllDigits(s)
  {
    if s == [] then 0 else DigitsValue(s[..|s| - 1]) * 10 + DigitValue(s[|s| - 1])
  }

  /** `${n}` for a non-negative integer n: its shortest decimal spelling. */
  function NatToString(n: nat): (s: string)
    ensures 1 <= |s| && AllDigits(s)
    ensures |s| > 1 ==> s[0] != '0'
    ensures n < 10 <==> |s| == 1
  {
    if n < 10 then [DigitChar(n)] else NatToString(n / 10) + [DigitChar(n % 10)]
  }

  /** Reading the decimal text of n gives back n. */
  lemma {:induction false} NatToStringValue(n: nat)
    ensures DigitsValue(NatToString(n)) == n
  {
    var s := NatToString(n);
    if n >= 10 {
      NatToStringValue(n / 10);
      assert s[..|s| - 1] == NatToString(n / 10);
    } else {
      assert s[..|s| - 1] == [];
    }
  }

  /** The decimal text of n has at most two characters exactly when n < 100. */
  lemma NatToStringAtMostTwo(n: nat)
    ensures |NatToString(n)| <= 2 <==> n < 100
  {
    if n >= 10 {
      assert |NatToString(n)| == |NatToString(n / 10)| + 1;
    }
  }

  /** Different numbers have different decimal spellings. */
  lemma NatToStringInjective(m: nat, n: nat)
    requires NatToString(m) == NatToString(n)
    ensures m == n
  {
    NatToStringValue(m);
    NatToStringValue(n);
  }

  /** A leading '0' does not change the value of a digit string. */
  lemma {:induction false} LeadingZeroValue(s: string)
    requires AllDigits(s)
    ensures AllDigits("0" + s) && DigitsValue("0" + s) == DigitsValue(s)
  {
    var z := "0" + s;
    assert AllDigits(z) by {
      forall i | 0 <= i < |z| ensures IsDigit(z[i]) {
        if i > 0 { assert z[i] == s[i - 1]; }
      }
    }
    if s == [] {
      assert z[..|z| - 1] == [];
    } else {
      LeadingZeroValue(s[..|s| - 1]);
      assert z[..|z| - 1] == "0" + s[..|s| - 1];
    }
  }

  /** `s.padStart(2, '0')`: zeros in front until the text is two characters long. */
  function PadStart2(s: string): (r: string)
    ensures |r| == if |s| >= 2 then |s| else 2
    ensures r[|r| - |s|..] == s
    ensures forall i :: 0 <= i < |r| - |s| ==> r[i] == '0'
  {
    if |s| >= 2 then s else if |s| == 1 then "0" + s else "00"
  }

  /** Zero padding keeps the text a digit string with the same value. */
  lemma PadStart2Value(s: string)
    requires AllDigits(s)
    ensures AllDigits(PadStart2(s)) && DigitsValue(PadStart2(s)) == DigitsValue(s)
  {
    if |s| == 1 {
      LeadingZeroValue(s);
    } else if |s| == 0 {
      LeadingZeroValue("0");
      assert "0" + "0" == "00";
    }
  }

  /** The number of leading decimal digits of s. */
  function LeadingDigits(s: string): (k: nat)
    ensures k <= |s|
    ensures AllDigits(s[..k])
    ensures k < |s| ==> !IsDigit(s[k])
  {
    if s == [] || !IsDigit(s[0]) then 0
    else
      var k := 1 + LeadingDigits(s[1..]);
      assert s[..k] == [s[0]] + s[1..][..k - 1];
      k
  }

  /** `parseInt(s)` on text that starts with its digits (no sign, no blanks): the
      value of the leading digits, or None (JavaScript's NaN) when there are none. */
  function ParseInt(s: string): (r: Option<nat>)
    ensures r.None? <==> s == [] || !IsDigit(s[0])
    ensures AllDigits(s) && s != [] ==> r == Some(DigitsValue(s))
  {
    var k := LeadingDigits(s);
    assert AllDigits(s) ==> k == |s| && s[..k] == s;
    if k == 0 then None else Some(DigitsValue(s[..k]))
  }

  /** parseInt reads back a zero-padded `toString()` as the same number. */
  lemma ParseIntPadded(n: nat)
    ensures ParseInt(PadStart2(NatToString(n))) == Some(n)
  {
    NatToStringValue(n);
    PadStart2Value(NatToString(n));
  }

  /** parseInt reads back what `toString()` wrote. */
  lemma ParseIntNatToString(n: nat)
    ensures ParseInt(NatToString(n)) == Some(n)
  {
    NatToStringValue(n);
  }

  /** Text that may follow a number without running into its digits. */
  predicate Delimited(x: string) { x == [] || !IsDigit(x[0]) }

  /** A number written in front of delimited text can be read off unambiguously:
      equal texts mean equal numbers and equal remainders. */
  lemma NumberPrefixUnique(a: nat, b: nat, x: string, y: string)
    requires Delimited(x) && Delimited(y)
    requires NatToString(a) + x == NatToString(b) + y
    ensures a == b && x == y
  {
    var sa, sb := NatToString(a), NatToString(b);
    LeadingDigitsBeforeDelimiter(sa, x);
    LeadingDigitsBeforeDelimiter(sb, y);
    assert sa == (sa + x)[..|sa|];
    assert sb == (sb + y)[..|sb|];
    NatToStringInjective(a, b);
  }

  /** Two numbers with a separator between them, followed by delimited text,
      can be read off unambiguously as well. */
  lemma TwoNumbersUnique(a1: nat, b1: nat, x: string, a2: nat, b2: nat, y: string, sep: string)
    requires sep != [] && !IsDigit(sep[0]) && Delimited(x) && Delimited(y)
    requires NatToString(a1) + (sep + (NatToString(b1) + x)) == NatToString(a2) + (sep + (NatToString(b2) + y))
    ensures a1 == a2 && b1 == b2 && x == y
  {
    var x1, x2 := sep + (NatToString(b1) + x), sep + (NatToString(b2) + y);
    NumberPrefixUnique(a1, a2, x1, x2);
    assert NatToString(b1) + x == x1[|sep|..];
    assert NatToString(b2) + y == x2[|sep|..];
    NumberPrefixUnique(b1, b2, x, y);
  }

  /** The leading digits of a digit string followed by delimited text are exactly that string. */
  lemma {:induction false} LeadingDigitsBeforeDelimiter(d: string, x: string)
    requires AllDigits(d) && Delimited(x)
    ensures LeadingDigits(d + x) == |d|
  {
    if d != [] {
      assert (d + x)[0] == d[0];
      assert (d + x)[1..] == d[1..] + x;
      LeadingDigitsBeforeDelimiter(d[1..], x);
    } else {
      assert d + x == x;
    }
  }

  /** Hours and leftover minutes of a number of seconds both depend only on its whole minutes. */
  lemma HoursAndMinutes(s: nat)
    ensures s / 3600 == s / 60 / 60
    ensures s % 3600 / 60 == s / 60 % 60
    ensures s / 60 == s / 3600 * 60 + s % 3600 / 60
  {
  }

  /** The plural suffix the formatters append: "s" unless the count is exactly 1. */
  function PluralSuffix(n: int): (r: string)
    ensures r == "" <==> n == 1
    ensures r != "" ==> r == "s"
  {
    if n != 1 then "s" else ""
  }
}
