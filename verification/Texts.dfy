/** Texts as the parsers see them: the part before a separator, and decimal numbers. */
module Texts {
  /** The front of `s` before the first `sep`, or all of it. */
  function Before<T(==)>(s: seq<T>, sep: T): (head: seq<T>)
    ensures head <= s && sep !in head
    ensures sep in s ==> |head| < |s| && s[|head|] == sep
    ensures sep !in s ==> head == s
  {
    if s == [] || s[0] == sep then [] else [s[0]] + Before(s[1..], sep)
  }

  predicate IsDigit(c: char) { '0' <= c <= '9' }

  function DigitValue(c: char): nat
    requires IsDigit(c)
  {
    c as int - '0' as int
  }

  function Value(digits: string): nat
    requires forall c | c in digits :: IsDigit(c)
  {
    if digits == [] then 0
    else Value(digits[..|digits| - 1]) * 10 + DigitValue(digits[|digits| - 1])
  }

  function Decimal(n: nat): (digits: string)
    ensures digits != [] && forall c | c in digits :: IsDigit(c)
  {
    var last := ['0' + (n % 10) as char];
    if n < 10 then last else Decimal(n / 10) + last
  }

  lemma {:induction false} DecimalValue(n: nat)
    ensures Value(Decimal(n)) == n
  {
    var digits := Decimal(n);
    if n >= 10 {
      DecimalValue(n / 10);
      assert digits[..|digits| - 1] == Decimal(n / 10);
    }
  }
}
