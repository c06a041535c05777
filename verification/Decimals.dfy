/** Decimal numerals, plain and zero-padded. */
module Decimals {

  function Digit(n: nat): char
    requires n < 10
  {
    '0' + n as char
  }

  function Decimal(n: nat): string {
    if n < 10 then [Digit(n)] else Decimal(n / 10) + [Digit(n % 10)]
  }

  /** The format `0<width>d`. */
  function Padded(n: nat, width: nat): string {
    PadTo(Decimal(n), width)
  }

  function PadTo(s: string, width: nat): string
    decreases width - |s|
  {
    if |s| >= width then s else PadTo("0" + s, width)
  }

  ghost function Value(s: string): int {
    if |s| == 0 then 0 else 10 * Value(s[..|s| - 1]) + (s[|s| - 1] as int - '0' as int)
  }

  lemma {:induction false} ValueOfDecimal(n: nat)
    ensures Value(Decimal(n)) == n
  {
    if n < 10 {
      assert Value([Digit(n)]) == 10 * Value([]) + (Digit(n) as int - '0' as int);
    } else {
      ValueOfDecimal(n / 10);
      assert Decimal(n)[..|Decimal(n)| - 1] == Decimal(n / 10);
    }
  }

  lemma {:induction false} ValueLeadingZero(s: string)
    ensures Value("0" + s) == Value(s)
  {
    if |s| == 0 {
      assert "0" + s == "0" && "0"[..0] == "";
    } else {
      ValueLeadingZero(s[..|s| - 1]);
      assert ("0" + s)[..|"0" + s| - 1] == "0" + s[..|s| - 1];
    }
  }

  lemma {:induction false} ValueOfPadTo(s: string, width: nat)
    ensures Value(PadTo(s, width)) == Value(s)
    decreases width - |s|
  {
    if |s| < width {
      ValueLeadingZero(s);
      ValueOfPadTo("0" + s, width);
    }
  }

  /** Different numbers print differently, padded or not. */
  lemma PaddedInjective(m: nat, n: nat, width: nat)
    requires Padded(m, width) == Padded(n, width)
    ensures m == n
  {
    ValueOfDecimal(m);
    ValueOfDecimal(n);
    ValueOfPadTo(Decimal(m), width);
    ValueOfPadTo(Decimal(n), width);
  }

  lemma DecimalInjective(m: nat, n: nat)
    requires Decimal(m) == Decimal(n)
    ensures m == n
  {
    ValueOfDecimal(m);
    ValueOfDecimal(n);
  }

  // ----- What the numerals look like -----

  ghost predicate AllDigits(s: string) {
    forall i | 0 <= i < |s| :: '0' <= s[i] <= '9'
  }

  /** The numeral of n: digits that stand for n, filled up with zeros to the width, or longer and without a leading zero. */
  ghost predicate IsNumeral(s: string, n: nat, width: nat) {
    AllDigits(s) && Value(s) == n && |s| >= width && (|s| > width ==> s[0] != '0')
  }

  lemma {:induction false} DecimalShape(n: nat)
    ensures AllDigits(Decimal(n)) && |Decimal(n)| > 0 && (|Decimal(n)| > 1 ==> Decimal(n)[0] != '0')
  {
    if n >= 10 {
      DecimalShape(n / 10);
      if |Decimal(n / 10)| == 1 {
        SingleDigit(n / 10);
      }
    }
  }

  lemma SingleDigit(n: nat)
    requires |Decimal(n)| == 1 && n > 0
    ensures Decimal(n)[0] != '0'
  {
    if n >= 10 {
      DecimalNotEmpty(n / 10);
    }
  }

  lemma DecimalNotEmpty(n: nat)
    ensures |Decimal(n)| > 0
  {
  }

  lemma {:induction false} PadToShape(s: string, width: nat)
    requires AllDigits(s)
    ensures AllDigits(PadTo(s, width)) && |PadTo(s, width)| == (if |s| >= width then |s| else width)
    ensures |s| >= width ==> PadTo(s, width) == s
    decreases width - |s|
  {
    if |s| < width {
      PadToShape("0" + s, width);
    }
  }

  /** Padded and plain numerals are what they should be. */
  lemma PaddedIsNumeral(n: nat, width: nat)
    ensures width > 0 ==> IsNumeral(Padded(n, width), n, width)
    ensures IsNumeral(Decimal(n), n, 1)
  {
    DecimalShape(n);
    PadToShape(Decimal(n), width);
    ValueOfDecimal(n);
    ValueOfPadTo(Decimal(n), width);
  }
}
