/** Decimal rendering of integers, as Python's str() and f-strings produce it,
    with a parser that inverts it. Record ids and tile file names are built
    from these strings, so their injectivity is what keeps ids and names
    distinct. */
module Decimal {

  predicate IsDigit(c: char)
  {
    '0' <= c <= '9'
  }

  function DigitChar(d: nat): (c: char)
    requires d < 10
    ensures IsDigit(c)
  {
    ('0' as int + d) as char
  }

  function DigitValue(c: char): nat
  {
    if IsDigit(c) then (c as int - '0' as int) as nat else 0
  }

  /** str(n) for n >= 0: most significant digit first, no leading zeros. */
  function NatToString(n: nat): (s: string)
    ensures |s| >= 1
    ensures forall k :: 0 <= k < |s| ==> IsDigit(s[k])
    ensures (|s| == 1) == (n < 10)
  {
    if n < 10 then [DigitChar(n)] else NatToString(n / 10) + [DigitChar(n % 10)]
  }

  /** str(n) for any int: a minus sign before the digits of |n|. */
  function IntToString(n: int): string
  {
    if n < 0 then "-" + NatToString(-n) else NatToString(n)
  }

  /** Reads a string of digits back as a number. */
  function ParseNat(s: string): nat
  {
    if s == [] then 0 else ParseNat(s[..|s| - 1]) * 10 + DigitValue(s[|s| - 1])
  }

  lemma {:induction false} ParseNatToString(n: nat)
    ensures ParseNat(NatToString(n)) == n
  {
    if n >= 10 {
      var s := NatToString(n);
      assert s[..|s| - 1] == NatToString(n / 10);
      ParseNatToString(n / 10);
    }
  }

  /** Distinct numbers render as distinct strings. */
  lemma NatToStringInjective(m: nat, n: nat)
    ensures NatToString(m) == NatToString(n) <==> m == n
  {
    ParseNatToString(m);
    ParseNatToString(n);
  }

  /** Distinct integers render as distinct strings; a rendering holds no '_'. */
  lemma IntToStringInjective(m: int, n: int)
    ensures IntToString(m) == IntToString(n) <==> m == n
    ensures '_' !in IntToString(m)
  {
    var sm, sn := IntToString(m), IntToString(n);
    assert (sm[0] == '-') == (m < 0);
    assert (sn[0] == '-') == (n < 0);
    if sm == sn {
      if m < 0 {
        assert NatToString(-m) == sm[1..] == sn[1..] == NatToString(-n);
        NatToStringInjective(-m, -n);
      } else {
        NatToStringInjective(m, n);
      }
    }
    assert forall k :: 0 <= k < |sm| ==> sm[k] == '-' || IsDigit(sm[k]);
  }
}
