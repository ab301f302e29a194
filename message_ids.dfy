/**
 * Message identifiers. Both managers turn their integer counter into the
 * identifier with Python's `str(...)`, so an identifier is the decimal text of
 * the counter value.
 */
module MessageIds {

  /** The decimal digit for `d`. */
  function DigitChar(d: nat): (c: char)
    requires d < 10
    ensures '0' <= c <= '9'
  {
    (48 + d) as char
  }

  /** Decimal text of a natural number, most significant digit first, no leading zeros. */
  function NatToString(n: nat): (s: string)
    ensures |s| >= 1
    ensures forall k :: 0 <= k < |s| ==> '0' <= s[k] <= '9'
    ensures n >= 10 ==> |s| >= 2
  {
    if n < 10 then [DigitChar(n)] else NatToString(n / 10) + [DigitChar(n % 10)]
  }

  /** Python's `str(i)` on an integer. */
  function IntToString(i: int): string {
    if i < 0 then "-" + NatToString(-i) else NatToString(i)
  }

  /** Two different counter values never give the same decimal text. */
  lemma {:induction false} NatToStringInjective(a: nat, b: nat)
    requires NatToString(a) == NatToString(b)
    ensures a == b
  {
    var s := NatToString(a);
    if a >= 10 && b >= 10 {
      assert DigitChar(a % 10) == s[|s| - 1] == DigitChar(b % 10);
      assert NatToString(a / 10) == s[..|s| - 1] == NatToString(b / 10);
      NatToStringInjective(a / 10, b / 10);
    }
  }

  /** Only the text of a negative value starts with a minus sign. */
  lemma LeadingSign(i: int)
    ensures |IntToString(i)| >= 1
    ensures IntToString(i)[0] == '-' <==> i < 0
  {
    if i >= 0 {
      var s := NatToString(i);
      assert '0' <= s[0] <= '9';
    }
  }

  /** The digits after the minus sign of a negative value are those of its magnitude. */
  lemma NegativeDigits(i: int)
    requires i < 0
    ensures IntToString(i)[1..] == NatToString(-i)
  {
    assert IntToString(i) == "-" + NatToString(-i);
  }

  /**
   * The identifiers `str(counter)` issued for two different counter values
   * differ, so a counter that only increases never issues an identifier twice.
   */
  lemma IdsDistinct(i: int, j: int)
    requires i != j
    ensures IntToString(i) != IntToString(j)
  {
    if (i < 0) != (j < 0) {
      LeadingSign(i);
      LeadingSign(j);
    } else if IntToString(i) == IntToString(j) {
      if i < 0 {
        NegativeDigits(i);
        NegativeDigits(j);
        NatToStringInjective(-i, -j);
      } else {
        NatToStringInjective(i, j);
      }
    }
  }
}
