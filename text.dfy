/**
 * How a template literal such as `${currentPage}` renders an integer-valued
 * JavaScript number: optional minus sign, then decimal digits with no leading
 * zero. The parser beside it is the partner that shows the rendering loses
 * nothing: integers and canonical decimal strings are in one-to-one
 * correspondence.
 */
module Text {
  import opened Wrappers

  predicate IsDigit(ch: char) {
    '0' <= ch <= '9'
  }

  predicate AllDigits(s: string) {
    forall k :: 0 <= k < |s| ==> IsDigit(s[k])
  }

  /** A non-empty digit string without a leading zero ("0" itself excepted). */
  predicate IsCanonicalDecimal(s: string) {
    1 <= |s| && AllDigits(s) && (s[0] == '0' ==> |s| == 1)
  }

  function DigitChar(d: nat): (ch: char)
    requires d < 10
    ensures IsDigit(ch) && DigitValue(ch) == d
  {
    ('0' as int + d) as char
  }

  function DigitValue(ch: char): nat
    requires IsDigit(ch)
  {
    ch as int - '0' as int
  }

  /** Decimal digits of `n`, most significant first. */
  function NatToDecimal(n: nat): (s: string)
    ensures IsCanonicalDecimal(s)
    ensures s[0] == '0' <==> n == 0
    decreases n
  {
    if n < 10 then [DigitChar(n)] else NatToDecimal(n / 10) + [DigitChar(n % 10)]
  }

  /** The number a digit string denotes (leading zeros allowed). */
  function DecimalValue(s: string): nat
    requires AllDigits(s)
    decreases |s|
  {
    if s == [] then 0 else 10 * DecimalValue(s[..|s| - 1]) + DigitValue(s[|s| - 1])
  }

  lemma {:induction false} DecimalValueOfNatToDecimal(n: nat)
    ensures DecimalValue(NatToDecimal(n)) == n
    decreases n
  {
    if n >= 10 {
      var s := NatToDecimal(n);
      assert s[..|s| - 1] == NatToDecimal(n / 10);
      DecimalValueOfNatToDecimal(n / 10);
    }
  }

  lemma {:induction false} NatToDecimalOfDecimalValue(s: string)
    requires IsCanonicalDecimal(s)
    ensures NatToDecimal(DecimalValue(s)) == s
    decreases |s|
  {
    if |s| > 1 {
      var p := s[..|s| - 1];
      assert p[0] == s[0];
      NatToDecimalOfDecimalValue(p);
      var d := DigitValue(s[|s| - 1]);
      var v := DecimalValue(s);
      assert DecimalValue(p) != 0;
      assert v / 10 == DecimalValue(p) && v % 10 == d;
      assert s == p + [DigitChar(d)];
    }
  }

  /** `${n}` for an integer-valued number `n`. */
  function IntToText(n: int): (s: string)
  {
    if n < 0 then "-" + NatToDecimal(-n) else NatToDecimal(n)
  }

  /**
   * Reference decoder, used only to show that the rendering is one-to-one:
   * it reads back exactly the strings `IntToText` produces.
   */
  function ParseInt(s: string): (r: Option<int>)
  {
    if 2 <= |s| && s[0] == '-' && IsCanonicalDecimal(s[1..]) && s[1] != '0' then
      Some(-(DecimalValue(s[1..]) as int))
    else if IsCanonicalDecimal(s) then
      Some(DecimalValue(s))
    else
      None
  }

  /** Rendering an integer never produces a space. */
  lemma IntToTextHasNoSpace(n: int)
    ensures 1 <= |IntToText(n)|
    ensures forall k :: 0 <= k < |IntToText(n)| ==> IntToText(n)[k] != ' '
  {
    var s := IntToText(n);
    if n < 0 {
      assert forall k :: 1 <= k < |s| ==> s[k] == NatToDecimal(-n)[k - 1];
    }
  }

  lemma ParseIntOfIntToText(n: int)
    ensures ParseInt(IntToText(n)) == Some(n)
  {
    var s := IntToText(n);
    if n < 0 {
      assert s[1..] == NatToDecimal(-n);
      DecimalValueOfNatToDecimal(-n);
    } else {
      DecimalValueOfNatToDecimal(n);
    }
  }

  lemma IntToTextOfParseInt(s: string, n: int)
    requires ParseInt(s) == Some(n)
    ensures IntToText(n) == s
  {
    if 2 <= |s| && s[0] == '-' && IsCanonicalDecimal(s[1..]) && s[1] != '0' {
      NatToDecimalOfDecimalValue(s[1..]);
      assert s == "-" + s[1..];
    } else {
      NatToDecimalOfDecimalValue(s);
    }
  }

  /** Two integers render the same only if they are equal. */
  lemma IntToTextInjective(a: int, b: int)
    requires IntToText(a) == IntToText(b)
    ensures a == b
  {
    ParseIntOfIntToText(a);
    ParseIntOfIntToText(b);
  }
}
