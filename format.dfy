/**
 * Decimal rendering used by the two time formatters: Python's `f"{n:02d}"`
 * field, a "minutes:seconds" clock built from two such fields, and a parser
 * for that clock text that serves as the formatters' inverse.
 */
module Format {
  import opened Optional

  predicate IsDigit(c: char) { '0' <= c <= '9' }

  predicate AllDigits(s: string) { forall i :: 0 <= i < |s| ==> IsDigit(s[i]) }

  function DigitChar(d: nat): (c: char)
    requires d < 10
    ensures IsDigit(c) && DigitValue(c) == d
  {
    ('0' as int + d) as char
  }

  function DigitValue(c: char): (d: nat)
    requires IsDigit(c)
    ensures d < 10
  {
    c as int - '0' as int
  }

  /** The decimal digits of `n`, most significant first, without leading zeros. */
  function Digits(n: nat): (s: string)
    ensures 1 <= |s| && AllDigits(s)
    ensures |s| == 1 <==> n < 10
    ensures 10 <= n < 100 ==> |s| == 2
    ensures n > 0 ==> s[0] != '0'
  {
    if n < 10 then [DigitChar(n)] else Digits(n / 10) + [DigitChar(n % 10)]
  }

  /** The number a string of decimal digits denotes (leading zeros allowed). */
  function ParseDigits(s: string): nat
    requires AllDigits(s)
  {
    if s == [] then 0 else ParseDigits(s[..|s| - 1]) * 10 + DigitValue(s[|s| - 1])
  }

  lemma {:induction false} ParseDigitsOfDigits(n: nat)
    ensures ParseDigits(Digits(n)) == n
  {
    var s := Digits(n);
    if n < 10 {
      assert s[..|s| - 1] == [];
    } else {
      assert s[..|s| - 1] == Digits(n / 10);
      ParseDigitsOfDigits(n / 10);
    }
  }

  /** A leading zero does not change the value of a digit string. */
  lemma {:induction false} ParseDigitsLeadingZero(s: string)
    requires AllDigits(s)
    ensures AllDigits("0" + s) && ParseDigits("0" + s) == ParseDigits(s)
  {
    var t := "0" + s;
    assert AllDigits(t) by {
      forall i | 0 <= i < |t| ensures IsDigit(t[i]) {
        if i > 0 { assert t[i] == s[i - 1]; }
      }
    }
    if s != [] {
      assert t[..|t| - 1] == "0" + s[..|s| - 1];
      ParseDigitsLeadingZero(s[..|s| - 1]);
    } else {
      assert t[..|t| - 1] == [];
    }
  }

  /**
   * Python's `f"{n:02d}"`: a minus sign for negative `n`, then the digits,
   * zero-padded so that the field is at least two characters wide.
   */
  function Pad2(n: int): (s: string)
    ensures |s| >= 2
    ensures n >= 0 ==> AllDigits(s)
    ensures n >= 10 ==> s[0] != '0'
    ensures n < 0 ==> s[0] == '-' && s[1] != '0'
  {
    if n < 0 then "-" + Digits(-n)
    else if n < 10 then "0" + Digits(n)
    else Digits(n)
  }

  /**
   * A non-negative field is all digits, exactly two wide below 10 and
   * otherwise the digits of `n` with no leading zero, and reads back as `n`.
   */
  lemma Pad2RoundTrip(n: nat)
    ensures |Pad2(n)| >= 2 && (n < 100 ==> |Pad2(n)| == 2)
    ensures |Pad2(n)| == if n < 10 then 2 else |Digits(n)|
    ensures n >= 10 ==> Pad2(n)[0] != '0'
    ensures AllDigits(Pad2(n)) && ParseDigits(Pad2(n)) == n
  {
    ParseDigitsOfDigits(n);
    if n < 10 {
      ParseDigitsLeadingZero(Digits(n));
    }
  }

  /** A negative field is its sign followed by the digits of its magnitude, with no leading zero. */
  lemma Pad2Negative(n: int)
    requires n < 0
    ensures |Pad2(n)| >= 2 && Pad2(n)[0] == '-' && Pad2(n)[1] != '0'
    ensures Pad2(n)[1..] == Digits(-n)
    ensures AllDigits(Pad2(n)[1..]) && ParseDigits(Pad2(n)[1..]) == -n
  {
    var d := Digits(-n);
    assert Pad2(n) == "-" + d;
    assert ("-" + d)[1..] == d;
    ParseDigitsOfDigits(-n);
  }

  /** `f"{minutes:02d}:{seconds:02d}"`. */
  function Clock(minutes: int, seconds: int): (s: string)
    ensures |s| == |Pad2(minutes)| + 1 + |Pad2(seconds)| && s[|Pad2(minutes)|] == ':'
  {
    Pad2(minutes) + ":" + Pad2(seconds)
  }

  /**
   * Reads "M…M:SS" (at least two minute digits, exactly two second digits)
   * back into its two fields; `None` for any other text.
   */
  function ParseClock(s: string): Option<(nat, nat)>
  {
    if |s| >= 5 && s[|s| - 3] == ':' && AllDigits(s[..|s| - 3]) && AllDigits(s[|s| - 2..])
    then Some((ParseDigits(s[..|s| - 3]), ParseDigits(s[|s| - 2..])))
    else None
  }

  /** The clock text of two non-negative fields, the second below 100, parses back to those fields. */
  lemma ClockRoundTrip(minutes: nat, seconds: nat)
    requires seconds < 100
    ensures ParseClock(Clock(minutes, seconds)) == Some((minutes, seconds))
  {
    var s := Clock(minutes, seconds);
    Pad2RoundTrip(minutes);
    Pad2RoundTrip(seconds);
    assert s[..|s| - 3] == Pad2(minutes);
    assert s[|s| - 2..] == Pad2(seconds);
  }

  /**
   * Whatever the minutes field (negative included), the clock text ends in
   * ':' and two digits that read back as the seconds field.
   */
  lemma ClockSecondsField(minutes: int, seconds: nat)
    requires seconds < 100
    ensures var s := Clock(minutes, seconds);
      |s| >= 5 && s[|s| - 3] == ':' && AllDigits(s[|s| - 2..])
      && ParseDigits(s[|s| - 2..]) == seconds
  {
    var s := Clock(minutes, seconds);
    if minutes < 0 { Pad2Negative(minutes); } else { Pad2RoundTrip(minutes); }
    Pad2RoundTrip(seconds);
    assert s[|s| - 2..] == Pad2(seconds);
  }
}
