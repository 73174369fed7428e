/**
 * `prettifyNumber`: the short display form of a count. Counts are integers here;
 * `String(count)` is the decimal numeral with a leading "-" for negative counts.
 */
module Helpers {
  import opened JsMath

  function Digit(d: nat): char
    requires d < 10
  {
    "0123456789"[d]
  }

  predicate IsDigit(c: char) { '0' <= c <= '9' }

  /** The decimal numeral of `n`, without leading zeros. */
  function NatToDigits(n: nat): (s: string)
    ensures |s| >= 1
    ensures forall i :: 0 <= i < |s| ==> IsDigit(s[i])
  {
    if n < 10 then [Digit(n)] else NatToDigits(n / 10) + [Digit(n % 10)]
  }

  /** `String(n)` for an integer `n`. */
  function IntToString(n: int): (s: string)
    ensures forall i :: 0 <= i < |s| ==> IsDigit(s[i]) || s[i] == '-'
  {
    if n < 0 then "-" + NatToDigits(-n) else NatToDigits(n)
  }

  function Pow10(k: nat): (p: nat)
    ensures p >= 1
  {
    if k == 0 then 1 else 10 * Pow10(k - 1)
  }

  /** A count with `k` decimal digits has a numeral of length `k`. */
  lemma {:induction false} DigitsLength(n: nat, k: nat)
    requires k >= 1 && Pow10(k - 1) <= n < Pow10(k)
    ensures |NatToDigits(n)| == k
  {
    if n >= 10 {
      assert k >= 2;
      assert Pow10(k - 2) <= n / 10 < Pow10(k - 1);
      DigitsLength(n / 10, k - 1);
    }
  }

  /** JavaScript's treatment of a `slice` index against a string of length `len`. */
  function SliceIndex(i: int, len: nat): (r: nat)
    ensures r <= len
  {
    if i < 0 then (if len + i < 0 then 0 else len + i)
    else if i > len then len else i
  }

  /** `s.slice(start, end)`. */
  function Slice(s: string, start: int, end: int): string
  {
    var from, to := SliceIndex(start, |s|), SliceIndex(end, |s|);
    if from < to then s[from..to] else ""
  }

  /** `x.toFixed(1)` for a non-negative `x` below 1e21, on exact reals. */
  function FixedOneDecimal(x: real): (s: string)
    requires x >= 0.0
    ensures forall i :: 0 <= i < |s| ==> IsDigit(s[i]) || s[i] == '.'
  {
    var tenths: nat := Round(x * 10.0);
    NatToDigits(tenths / 10) + "." + [Digit(tenths % 10)]
  }

  /** The model of `prettifyNumber` as written. */
  function PrettifyNumber(count: int): string
  {
    if count > 1000000000 then FixedOneDecimal(count as real / 1000000000.0) + "B"
    else if count > 1000000 then FixedOneDecimal(count as real / 1000000.0) + "M"
    else if count > 1000 then
      var s := IntToString(count);
      var cutoff := 5 - |s|;
      Slice(s, 0, cutoff) + "," + Slice(s, cutoff, |s|)
    else IntToString(count)
  }

  function RemoveCommas(s: string): string
  {
    if s == [] then []
    else (if s[0] == ',' then [] else [s[0]]) + RemoveCommas(s[1..])
  }

  function CountCommas(s: string): nat
  {
    if s == [] then 0 else (if s[0] == ',' then 1 else 0) + CountCommas(s[1..])
  }

  lemma {:induction false} CommaFreeSplit(a: string, b: string)
    requires forall i :: 0 <= i < |a| ==> a[i] != ','
    requires forall i :: 0 <= i < |b| ==> b[i] != ','
    ensures RemoveCommas(a + "," + b) == a + b
    ensures CountCommas(a + "," + b) == 1
  {
    if a == [] {
      assert a + "," + b == [','] + b;
      assert ([','] + b)[1..] == b;
      NoCommas(b);
    } else {
      assert (a + "," + b)[1..] == a[1..] + "," + b;
      CommaFreeSplit(a[1..], b);
    }
  }

  lemma {:induction false} NoCommas(s: string)
    requires forall i :: 0 <= i < |s| ==> s[i] != ','
    ensures RemoveCommas(s) == s && CountCommas(s) == 0
  {
    if s != [] {
      NoCommas(s[1..]);
    }
  }

  lemma DigitCount(count: int)
    requires 1000 < count <= 1000000
    ensures 4 <= |IntToString(count)| <= 7
  {
    assert Pow10(3) == 1000 && Pow10(4) == 10000 && Pow10(5) == 100000;
    assert Pow10(6) == 1000000 && Pow10(7) == 10000000;
    if count < 10000 {
      DigitsLength(count, 4);
    } else if count < 100000 {
      DigitsLength(count, 5);
    } else if count < 1000000 {
      DigitsLength(count, 6);
    } else {
      DigitsLength(count, 7);
    }
  }

  /**
   * Between one thousand and one million the output is `String(count)` with exactly one
   * comma, placed where `slice(0, 5 - length)` cuts; without the comma it is `String(count)`.
   */
  lemma CommaBranch(count: int)
    requires 1000 < count <= 1000000
    ensures var s := IntToString(count);
            var p := SliceIndex(5 - |s|, |s|);
            && 4 <= |s| <= 7
            && PrettifyNumber(count) == s[..p] + "," + s[p..]
            && RemoveCommas(PrettifyNumber(count)) == s
            && CountCommas(PrettifyNumber(count)) == 1
  {
    var s := IntToString(count);
    DigitCount(count);
    var p := SliceIndex(5 - |s|, |s|);
    assert Slice(s, 0, 5 - |s|) + "," + Slice(s, 5 - |s|, |s|) == s[..p] + "," + s[p..];
    CommaFreeSplit(s[..p], s[p..]);
    assert s[..p] + s[p..] == s;
  }

  /** Up to one thousand the output is `String(count)` unchanged. */
  lemma SmallCountsUnchanged(count: int)
    requires count <= 1000
    ensures PrettifyNumber(count) == IntToString(count)
  {
  }

  /**
   * The branches are tested from the largest threshold down and exclude one another:
   * the suffix "B", the suffix "M" and a comma each identify exactly one range.
   */
  lemma PrettifyBranches(count: int)
    ensures var out := PrettifyNumber(count);
            && |out| >= 1
            && (count > 1000000000 <==> out[|out| - 1] == 'B')
            && (1000000 < count <= 1000000000 <==> out[|out| - 1] == 'M')
            && (1000 < count <= 1000000 <==> CountCommas(out) == 1)
            && (count <= 1000 ==> out == IntToString(count))
  {
    var out := PrettifyNumber(count);
    if count > 1000 && count <= 1000000 {
      CommaBranch(count);
      var s := IntToString(count);
      var p := SliceIndex(5 - |s|, |s|);
      assert out[|out| - 1] == (s[..p] + "," + s[p..])[|out| - 1];
    } else {
      var s := if count > 1000000000 then FixedOneDecimal(count as real / 1000000000.0)
               else if count > 1000000 then FixedOneDecimal(count as real / 1000000.0)
               else IntToString(count);
      assert forall i :: 0 <= i < |s| ==> s[i] != ',';
      NoCommas(s);
      if count > 1000000 {
        var c := if count > 1000000000 then "B" else "M";
        assert out == s + c;
        NoCommas(c);
        CountCommasAppend(s, c);
      } else {
        assert out == s;
        assert forall i :: 0 <= i < |s| ==> s[i] != 'B' && s[i] != 'M';
      }
    }
  }

  lemma {:induction false} CountCommasAppend(a: string, b: string)
    ensures CountCommas(a + b) == CountCommas(a) + CountCommas(b)
  {
    if a != [] {
      assert (a + b)[1..] == a[1..] + b;
      CountCommasAppend(a[1..], b);
    } else {
      assert a + b == b;
    }
  }

  /**
   * The apparent intent: a thousands separator in front of the last three digits. It is
   * what the code gives for four digits, where the cutoff is 1 ("1,234", `FourDigitsAgree`),
   * and what a display of a count in the thousands means.
   */
  function PrettifyNumberGrouped(count: int): string
  {
    if count > 1000000000 then FixedOneDecimal(count as real / 1000000000.0) + "B"
    else if count > 1000000 then FixedOneDecimal(count as real / 1000000.0) + "M"
    else if count > 1000 then
      var s := IntToString(count);
      Slice(s, 0, |s| - 3) + "," + Slice(s, |s| - 3, |s|)
    else IntToString(count)
  }

  /** In the grouped form exactly three digits follow the one comma, and at least one precedes it. */
  lemma GroupedCommaBranch(count: int)
    requires 1000 < count <= 1000000
    ensures var s := IntToString(count);
            var out := PrettifyNumberGrouped(count);
            && 4 <= |s|
            && out == s[..|s| - 3] + "," + s[|s| - 3..]
            && |out| >= 5 && out[|out| - 4] == ','
            && RemoveCommas(out) == s
            && CountCommas(out) == 1
  {
    var s := IntToString(count);
    DigitCount(count);
    CommaFreeSplit(s[..|s| - 3], s[|s| - 3..]);
    assert s[..|s| - 3] + s[|s| - 3..] == s;
  }

  /** For four-digit counts the code as written and the grouped form agree. */
  lemma FourDigitsAgree(count: int)
    requires 1000 < count < 10000
    ensures PrettifyNumber(count) == PrettifyNumberGrouped(count)
  {
    assert Pow10(3) == 1000 && Pow10(4) == 10000;
    DigitsLength(count, 4);
  }

  /**
   * As written, from five digits on the comma does not stand before the last three digits:
   * a five-digit count gets it in front, a six-digit one before the last digit.
   */
  lemma MisplacedComma(count: int)
    requires 10000 <= count <= 1000000
    ensures var out := PrettifyNumber(count);
            && |out| >= 6
            && out[|out| - 4] != ','
            && (count < 100000 ==> out[0] == ',')
            && (100000 <= count < 1000000 ==> out[|out| - 2] == ',')
  {
    assert Pow10(4) == 10000 && Pow10(5) == 100000 && Pow10(6) == 1000000 && Pow10(7) == 10000000;
    if count < 100000 {
      DigitsLength(count, 5);
    } else if count < 1000000 {
      DigitsLength(count, 6);
    } else {
      DigitsLength(count, 7);
    }
    CommaAt(count);
  }

  /** Where the comma of the middle branch lands, for numerals of five to seven digits. */
  lemma CommaAt(count: int)
    requires 1000 < count <= 1000000 && 5 <= |IntToString(count)| <= 7
    ensures var s := IntToString(count);
            var out := PrettifyNumber(count);
            && |out| == |s| + 1
            && (|s| == 5 ==> out[0] == ',' && out[|out| - 4] == s[1])
            && (|s| >= 6 ==> out[5] == ',' && out[|out| - 4] == s[|s| - 3])
  {
    CommaBranch(count);
  }
}
