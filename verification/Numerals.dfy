/** Printing and reading unsigned numerals, in base 10 for headers and 16 for chunk sizes. */
module Numerals {
  import opened Prelude

  const DIGITS: seq<byte> := "0123456789abcdef"

  type base = b: int | 2 <= b <= 16 witness 10

  function Numeral(n: nat, b: base): (s: seq<byte>)
    ensures s != []
    decreases n
  {
    if n < b then [DIGITS[n]] else Numeral(n / b, b) + [DIGITS[n % b]]
  }

  function DigitValue(c: byte, b: base): (v: Option<nat>)
    ensures v.Some? ==> v.value < b
  {
    var v := if '0' <= c <= '9' then c as int - '0' as int
             else if 'a' <= c <= 'f' then c as int - 'a' as int + 10
             else if 'A' <= c <= 'F' then c as int - 'A' as int + 10
             else 16;
    if v < b then Some(v) else None
  }

  ghost predicate AllDigits(s: seq<byte>, b: base) {
    forall i | 0 <= i < |s| :: DigitValue(s[i], b).Some?
  }

  /** The length of the longest run of digits at the front. */
  function DigitCount(s: seq<byte>, b: base): (n: nat)
    ensures n <= |s| && AllDigits(s[..n], b)
    ensures n < |s| ==> DigitValue(s[n], b).None?
  {
    if s == [] || DigitValue(s[0], b).None? then 0 else 1 + DigitCount(s[1..], b)
  }

  function Number(s: seq<byte>, b: base): nat
    requires AllDigits(s, b)
  {
    if s == [] then 0 else b * Number(s[..|s| - 1], b) + DigitValue(s[|s| - 1], b).value
  }

  lemma DigitsRead(d: nat, b: base)
    requires d < b
    ensures DigitValue(DIGITS[d], b) == Some(d) && (DIGITS[d] == '0' <==> d == 0)
    ensures DIGITS[d] in DIGITS
  {
  }

  lemma DivMod(n: nat, b: base)
    ensures n == b * (n / b) + n % b && 0 <= n % b < b && (n >= b ==> 0 < n / b < n)
  {
  }

  lemma NumberSnoc(s: seq<byte>, d: nat, b: base)
    requires AllDigits(s, b) && d < b
    ensures AllDigits(s + [DIGITS[d]], b) && Number(s + [DIGITS[d]], b) == b * Number(s, b) + d
  {
    DigitsRead(d, b);
    assert (s + [DIGITS[d]])[..|s|] == s;
  }

  /** Only digits, and no leading zero. */
  lemma {:induction false} NumeralShape(n: nat, b: base)
    ensures forall c | c in Numeral(n, b) :: c in DIGITS
    ensures Numeral(n, b)[0] == '0' <==> n == 0
    decreases n
  {
    DivMod(n, b);
    DigitsRead(n % b, b);
    if n >= b {
      NumeralShape(n / b, b);
    }
  }

  /** Reading a printed number gives the number back. */
  lemma {:induction false} NumeralReads(n: nat, b: base)
    ensures AllDigits(Numeral(n, b), b) && Number(Numeral(n, b), b) == n
    decreases n
  {
    if n < b {
      NumberSnoc([], n, b);
      assert [DIGITS[n]] == [] + [DIGITS[n]];
    } else {
      DivMod(n, b);
      NumeralReads(n / b, b);
      NumberSnoc(Numeral(n / b, b), n % b, b);
    }
  }

  lemma {:induction false} DigitCountIs(digits: seq<byte>, rest: seq<byte>, b: base)
    requires AllDigits(digits, b)
    requires rest != [] ==> DigitValue(rest[0], b).None?
    ensures DigitCount(digits + rest, b) == |digits|
  {
    if digits == [] {
      assert digits + rest == rest;
    } else {
      assert (digits + rest)[1..] == digits[1..] + rest;
      assert AllDigits(digits[1..], b) by {
        assert forall i | 0 <= i < |digits| - 1 :: digits[1..][i] == digits[i + 1];
      }
      DigitCountIs(digits[1..], rest, b);
    }
  }
}
