/** Numbers written in decimal, as the codes of their characters. */
module Decimals {
  import opened Base

  const ZERO := 48
  const NINE := 57
  const PLUS := 43

  /** The first number too large for the machine's word. */
  const LIMIT := 0x1_0000_0000_0000_0000

  predicate IsDigit(code: int) { ZERO <= code <= NINE }

  predicate AllDigits(codes: seq<int>) { forall i :: 0 <= i < |codes| ==> IsDigit(codes[i]) }

  /** `n` in decimal, without leading zeros. */
  function Decimal(n: nat): (r: seq<Byte>)
    ensures r != [] && forall i :: 0 <= i < |r| ==> IsDigit(r[i])
  {
    if n < 10 then [ZERO + n] else Decimal(n / 10) + [ZERO + n % 10]
  }

  /** What digits write. */
  function ValueOf(digits: seq<int>): (r: nat)
    requires AllDigits(digits)
  {
    if digits == [] then 0 else ValueOf(digits[..|digits| - 1]) * 10 + (digits[|digits| - 1] - ZERO)
  }

  /** The number that codes write: digits, after a plus or not, that fit the
      machine's word. */
  function Parse(codes: seq<int>): Option<nat> {
    var digits := if codes != [] && codes[0] == PLUS then codes[1..] else codes;
    if digits == [] || !AllDigits(digits) || ValueOf(digits) >= LIMIT then None else Some(ValueOf(digits))
  }

  lemma {:induction false} DecimalHasItsValue(n: nat)
    ensures ValueOf(Decimal(n)) == n
  {
    if n >= 10 {
      DecimalHasItsValue(n / 10);
      assert Decimal(n)[..|Decimal(n)| - 1] == Decimal(n / 10);
    } else {
      assert Decimal(n)[..0] == [];
    }
  }

  /** A number in decimal reads back, if it fits. */
  lemma DecimalReadsBack(n: nat)
    ensures Parse(Decimal(n)) == if n < LIMIT then Some(n) else None
  {
    DecimalHasItsValue(n);
  }
}
