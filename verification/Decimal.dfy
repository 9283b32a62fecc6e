/** Decimal rendering of integers, as Rust's `{}` prints them. */
module Decimal {
  function Digit(d: nat): (c: char)
    requires d < 10
    ensures '0' <= c <= '9' && c as int == '0' as int + d
  {
    ['0', '1', '2', '3', '4', '5', '6', '7', '8', '9'][d]
  }

  function OfNat(n: nat): (text: string)
    ensures |text| >= 1
  {
    if n < 10 then [Digit(n)] else OfNat(n / 10) + [Digit(n % 10)]
  }

  function OfInt(n: int): (text: string)
    ensures |text| >= 1
  {
    if n < 0 then "-" + OfNat(-n) else OfNat(n)
  }

  /** Different numbers are rendered differently. */
  lemma {:induction false} OfNatIsInjective(a: nat, b: nat)
    requires OfNat(a) == OfNat(b)
    ensures a == b
  {
    var text := OfNat(a);
    assert text[|text| - 1] == Digit(a % 10) == Digit(b % 10);
    if a >= 10 || b >= 10 {
      assert a >= 10 && b >= 10;
      assert OfNat(a / 10) == text[..|text| - 1] == OfNat(b / 10);
      OfNatIsInjective(a / 10, b / 10);
    }
  }

  lemma {:induction false} OfNatHasOnlyDigits(n: nat)
    ensures forall i :: 0 <= i < |OfNat(n)| ==> '0' <= OfNat(n)[i] <= '9'
  {
    if n >= 10 {
      OfNatHasOnlyDigits(n / 10);
    }
  }

  /** The number that a text of digits spells. */
  function ValueOf(text: string): int
    decreases |text|
  {
    if text == [] then 0
    else 10 * ValueOf(text[..|text| - 1]) + (text[|text| - 1] as int - '0' as int)
  }

  /** A number is rendered in digits that spell it, without leading zeros. */
  lemma {:induction false} OfNatSpells(n: nat)
    ensures ValueOf(OfNat(n)) == n && (n > 0 ==> OfNat(n)[0] != '0')
  {
    if n >= 10 {
      OfNatSpells(n / 10);
      assert OfNat(n)[..|OfNat(n)| - 1] == OfNat(n / 10);
    } else {
      assert OfNat(n)[..0] == [];
    }
  }

  /** Only a negative number has a sign, and the rest of it spells its amount. */
  lemma OfIntSpells(n: int)
    ensures if n < 0 then OfInt(n)[0] == '-' && ValueOf(OfInt(n)[1..]) == -n
            else OfInt(n)[0] != '-' && ValueOf(OfInt(n)) == n
  {
    OfNatSpells(if n < 0 then -n else n);
    OfNatHasOnlyDigits(if n < 0 then -n else n);
    if n < 0 {
      assert OfInt(n)[1..] == OfNat(-n);
    }
  }
}
