/** Base-10 integer text: Go's `strconv.FormatInt(n, 10)` and
    `strconv.Atoi` on a platform whose `int` is 64 bits wide. */
module Decimal {
  import opened Wrappers

  const Int64Min: int := -0x8000_0000_0000_0000
  const Int64Max: int := 0x7fff_ffff_ffff_ffff

  predicate IsDigit(ch: char) { '0' <= ch <= '9' }

  predicate AllDigits(s: string) { forall k :: 0 <= k < |s| ==> IsDigit(s[k]) }

  function DigitChar(d: nat): char
    requires d < 10
  {
    ['0', '1', '2', '3', '4', '5', '6', '7', '8', '9'][d]
  }

  function DigitValue(ch: char): nat
    requires IsDigit(ch)
  {
    (ch as int - '0' as int) as nat
  }

  /** The value of a string of decimal digits, most significant first. */
  function DigitsValue(s: string): nat
    requires AllDigits(s)
    decreases |s|
  {
    if |s| == 0 then 0
    else DigitsValue(s[..|s| - 1]) * 10 + DigitValue(s[|s| - 1])
  }

  /** Decimal digits of `m` without leading zeros ("0" for zero). */
  function NatText(m: nat): (s: string)
    ensures |s| > 0 && AllDigits(s)
    ensures s[0] == '0' <==> m == 0
    ensures m == 0 ==> s == "0"
  {
    if m < 10 then [DigitChar(m)] else NatText(m / 10) + [DigitChar(m % 10)]
  }

  /** `strconv.FormatInt(n, 10)`: a minus sign only for negative values. */
  function DecimalText(n: int): (s: string)
    ensures |s| > 0
    ensures s[0] == '-' <==> n < 0
    ensures n >= 0 ==> AllDigits(s)
    ensures n < 0 ==> |s| > 1 && AllDigits(s[1..])
    ensures n == 0 ==> s == "0"
    ensures n > 0 ==> s[0] != '0'
    ensures n < 0 ==> s[1] != '0'
  {
    if n < 0 then "-" + NatText(-n) else NatText(n)
  }

  /** `strconv.Atoi`: an optional `+` or `-`, then one or more decimal
      digits (leading zeros allowed), whose value must fit in 64 bits;
      anything else is an error, here `None`. */
  function ParseInt(s: string): (r: Option<int>)
    ensures r.Some? ==> Int64Min <= r.value <= Int64Max
    ensures r.Some? ==> |s| > 0 && (AllDigits(s) || ((s[0] == '-' || s[0] == '+') && AllDigits(s[1..])))
    ensures |s| == 0 || s == "-" || s == "+" ==> r.None?
    ensures |s| > 0 && AllDigits(s) ==>
              r == if DigitsValue(s) <= Int64Max then Some(DigitsValue(s) as int) else None
    ensures |s| > 1 && s[0] == '+' && AllDigits(s[1..]) ==>
              r == if DigitsValue(s[1..]) <= Int64Max then Some(DigitsValue(s[1..]) as int) else None
    ensures |s| > 1 && s[0] == '-' && AllDigits(s[1..]) ==>
              r == if DigitsValue(s[1..]) <= -Int64Min then Some(-(DigitsValue(s[1..]) as int)) else None
  {
    if |s| == 0 then None
    else
      assert AllDigits(s) ==> IsDigit(s[0]);
      var signed := s[0] == '-' || s[0] == '+';
      var digits := if signed then s[1..] else s;
      if |digits| == 0 || !AllDigits(digits) then None
      else
        var magnitude: int := DigitsValue(digits);
        var n := if s[0] == '-' then -magnitude else magnitude;
        if Int64Min <= n <= Int64Max then Some(n) else None
  }

  lemma {:induction false} DigitsOfNatText(m: nat)
    ensures DigitsValue(NatText(m)) == m
  {
    var s := NatText(m);
    if m >= 10 {
      DigitsOfNatText(m / 10);
      assert s[..|s| - 1] == NatText(m / 10);
      assert DigitValue(DigitChar(m % 10)) == m % 10;
    } else {
      assert DigitValue(DigitChar(m)) == m;
    }
  }

  /** A leading `+` changes nothing: `Atoi` reads "+" followed by digits
      exactly as it reads the digits, in range or not. */
  lemma PlusSignIsOptional(s: string)
    requires |s| > 0 && AllDigits(s)
    ensures ParseInt("+" + s) == ParseInt(s)
  {
    assert ("+" + s)[1..] == s;
  }

  /** Formatting an integer and parsing the text back gives the integer:
      the column text of every signed Go integer is a valid `Atoi` input. */
  lemma DecimalRoundTrip(n: int)
    requires Int64Min <= n <= Int64Max
    ensures ParseInt(DecimalText(n)) == Some(n)
  {
    if n < 0 {
      NegativeRoundTrip(n);
    } else {
      DigitsOfNatText(n);
      assert DecimalText(n) == NatText(n);
    }
  }

  lemma NegativeRoundTrip(n: int)
    requires Int64Min <= n < 0
    ensures ParseInt(DecimalText(n)) == Some(n)
  {
    var t := NatText(-n);
    DigitsOfNatText(-n);
    assert DecimalText(n) == "-" + t;
    ParseMinusDigits(t);
  }

  /** `Atoi` reads "-" and a digit string as the negated digit value. */
  lemma ParseMinusDigits(t: string)
    requires |t| > 0 && AllDigits(t) && DigitsValue(t) <= -Int64Min
    ensures ParseInt("-" + t) == Some(-(DigitsValue(t) as int))
  {
    assert ("-" + t)[1..] == t;
  }
}
