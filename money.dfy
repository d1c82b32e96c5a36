/**
 * Prices are held as integer cents. A reply shows a price the way Python's
 * `f"{cents / 100:.2f}"` does: whole units, a point, exactly two digits,
 * a leading minus sign for a negative amount and no grouping separators.
 */
module Money {
  import opened Wrappers

  predicate IsDigit(c: char) {
    '0' <= c <= '9'
  }

  predicate AllDigits(s: string) {
    forall i :: 0 <= i < |s| ==> IsDigit(s[i])
  }

  function DigitChar(d: nat): (c: char)
    requires d < 10
    ensures IsDigit(c)
  {
    ('0' as int + d) as char
  }

  /** The number a string of decimal digits denotes. */
  function DigitsValue(s: string): nat
    requires AllDigits(s)
  {
    if s == [] then 0 else DigitsValue(s[..|s| - 1]) * 10 + (s[|s| - 1] as int - '0' as int)
  }

  /** The decimal numeral of `n`, without leading zeros. */
  function ShowNat(n: nat): (s: string)
    ensures s != [] && AllDigits(s)
    ensures s[0] == '0' ==> s == "0"
  {
    if n < 10 then [DigitChar(n)] else ShowNat(n / 10) + [DigitChar(n % 10)]
  }

  lemma {:induction false} ShowNatValue(n: nat)
    ensures DigitsValue(ShowNat(n)) == n
  {
    if n >= 10 {
      var s := ShowNat(n);
      assert s[..|s| - 1] == ShowNat(n / 10);
      ShowNatValue(n / 10);
    }
  }

  /** `f"{c / 100:.2f}"` for `c >= 0`. */
  function ShowUnsignedCents(c: nat): (s: string)
    ensures |s| >= 4 && s[|s| - 3] == '.' && IsDigit(s[0])
    ensures s[0] == '0' ==> s[1] == '.'
    ensures AllDigits(s[..|s| - 3]) && AllDigits(s[|s| - 2..])
  {
    ShowNat(c / 100) + "." + [DigitChar(c / 10 % 10), DigitChar(c % 10)]
  }

  /** `f"{c / 100:.2f}"`. */
  function ShowCents(c: int): (s: string)
    ensures s != []
  {
    if c < 0 then "-" + ShowUnsignedCents(-c) else ShowUnsignedCents(c)
  }

  /** Reads back `D.CC` or `-D.CC` as a number of cents. */
  function ParseCents(s: string): Option<int> {
    if s != [] && s[0] == '-' then
      match ParseUnsignedCents(s[1..])
      case Some(v) => Some(-(v as int))
      case None => None
    else ParseUnsignedCents(s)
  }

  function ParseUnsignedCents(s: string): Option<nat> {
    if |s| >= 4 && s[|s| - 3] == '.' && AllDigits(s[..|s| - 3]) && AllDigits(s[|s| - 2..]) then
      Some(DigitsValue(s[..|s| - 3]) * 100 + DigitsValue(s[|s| - 2..]))
    else None
  }

  lemma CentsDigits(c: nat)
    ensures (c / 10 % 10) * 10 + c % 10 == c % 100
  {
    var q, m := c / 100, c % 100;
    assert c == 100 * q + m;
    assert c / 10 == 10 * q + m / 10;
    assert c / 10 % 10 == m / 10;
    assert c % 10 == m % 10;
  }

  lemma TwoDigitsValue(c: nat)
    ensures DigitsValue([DigitChar(c / 10 % 10), DigitChar(c % 10)]) == c % 100
  {
    var f := [DigitChar(c / 10 % 10), DigitChar(c % 10)];
    assert f[..1] == [DigitChar(c / 10 % 10)];
    assert f[..1][..0] == [];
    assert DigitsValue(f[..1]) == c / 10 % 10;
    CentsDigits(c);
  }

  lemma UnsignedRoundTrip(c: nat)
    ensures ParseUnsignedCents(ShowUnsignedCents(c)) == Some(c)
  {
    var s := ShowUnsignedCents(c);
    assert s[..|s| - 3] == ShowNat(c / 100);
    assert s[|s| - 2..] == [DigitChar(c / 10 % 10), DigitChar(c % 10)];
    ShowNatValue(c / 100);
    TwoDigitsValue(c);
    assert (c / 100) * 100 + c % 100 == c;
  }

  /** The rendered price reads back as exactly the stored number of cents. */
  lemma ShowCentsRoundTrip(c: int)
    ensures ParseCents(ShowCents(c)) == Some(c)
  {
    if c < 0 {
      UnsignedRoundTrip(-c);
      assert ("-" + ShowUnsignedCents(-c))[1..] == ShowUnsignedCents(-c);
    } else {
      UnsignedRoundTrip(c);
    }
  }
}
