/** The decimal integers that `std::from_chars` reads into a 32-bit `int`. */
module Decimal {
  import opened Outcomes

  const INT_MIN: int := -0x8000_0000
  const INT_MAX: int := 0x7fff_ffff

  /** The value of a `size_t` cast to a 32-bit `int`. */
  function ToInt32(n: nat): (i: int)
    ensures INT_MIN <= i <= INT_MAX
    ensures n <= INT_MAX ==> i == n
  {
    var low := n % 0x1_0000_0000;
    if low <= INT_MAX then low else low - 0x1_0000_0000
  }

  predicate IsDigit(c: char) {
    '0' <= c <= '9'
  }

  ghost predicate AllDigits(s: string) {
    forall i | 0 <= i < |s| :: IsDigit(s[i])
  }

  function Digits(s: string): (n: nat)
    requires AllDigits(s)
  {
    if s == "" then 0 else 10 * Digits(s[..|s| - 1]) + (s[|s| - 1] as int - '0' as int)
  }

  /** Decimal digits, as `std::to_string` writes them. */
  function Print(n: nat): (s: string)
    ensures s != "" && AllDigits(s)
  {
    var last := [('0' as int + n % 10) as char];
    if n < 10 then last else Print(n / 10) + last
  }

  lemma {:induction false} DigitsOfPrint(n: nat)
    ensures Digits(Print(n)) == n
  {
    if n >= 10 {
      DigitsOfPrint(n / 10);
      assert Print(n)[..|Print(n)| - 1] == Print(n / 10);
    }
  }

  /** An optional minus sign and at least one digit, with nothing left over. */
  ghost predicate IsDecimal(s: string) {
    var digits := if s != "" && s[0] == '-' then s[1..] else s;
    digits != "" && AllDigits(digits)
  }

  ghost function ValueOf(s: string): int
    requires IsDecimal(s)
  {
    if s[0] == '-' then 0 - Digits(s[1..]) else Digits(s)
  }

  /** A decimal integer whose value a 32-bit `int` can hold. */
  ghost predicate IsInt(s: string) {
    IsDecimal(s) && INT_MIN <= ValueOf(s) <= INT_MAX
  }

  /** `from_chars` followed by the check that it consumed the whole text. */
  method ParseInt(s: string) returns (r: Option<int>)
    ensures r == (if IsInt(s) then Some(ValueOf(s)) else None)
  {
    var negative := s != "" && s[0] == '-';
    var digits := if negative then s[1..] else s;
    if digits == "" {
      return None;
    }
    var n := 0;
    for i := 0 to |digits|
      invariant AllDigits(digits[..i]) && n == Digits(digits[..i])
    {
      if !IsDigit(digits[i]) {
        assert !AllDigits(digits);
        return None;
      }
      assert digits[..i + 1][..i] == digits[..i];
      n := 10 * n + (digits[i] as int - '0' as int);
    }
    assert digits[..|digits|] == digits;
    var value: int := if negative then -n else n;
    if value < INT_MIN || INT_MAX < value {
      return None;
    }
    return Some(value);
  }

  /** A printed number reads back exactly when it fits. */
  lemma IntOfPrint(n: nat)
    ensures IsDecimal(Print(n)) && ValueOf(Print(n)) == n
    ensures IsInt(Print(n)) <==> n <= INT_MAX
  {
    DigitsOfPrint(n);
    assert IsDigit(Print(n)[0]);
  }

  /** So does a negated one, and the range reaches one further there. */
  lemma IntOfNegated(n: nat)
    ensures IsDecimal("-" + Print(n)) && ValueOf("-" + Print(n)) == 0 - n
    ensures IsInt("-" + Print(n)) <==> n <= 0x8000_0000
  {
    DigitsOfPrint(n);
    assert ("-" + Print(n))[1..] == Print(n);
  }

  /** Ten digits, the most significant first, and no other sign. */
  lemma DigitsAre(c: char, s: string)
    ensures IsDigit(c) <==> c in "0123456789"
    ensures c != '-' && c !in "0123456789" ==> !IsDecimal([c] + s)
    ensures AllDigits("120") && Digits("120") == 120
  {
    assert "0123456789"[0] == '0' && "0123456789"[1] == '1' && "0123456789"[2] == '2' && "0123456789"[3] == '3';
    assert "0123456789"[4] == '4' && "0123456789"[5] == '5' && "0123456789"[6] == '6' && "0123456789"[7] == '7';
    assert "0123456789"[8] == '8' && "0123456789"[9] == '9';
    assert ([c] + s)[0] == c;
    assert "120"[..2] == "12" && "120"[..2][..1] == "1" && "120"[..2][..1][..0] == "";
    assert Digits("1") == 1 && Digits("12") == 12;
  }

  /** The cast keeps the number modulo 2^32, so with its range it is the only such value. */
  lemma CastWraps(n: nat)
    ensures (n - ToInt32(n)) % 0x1_0000_0000 == 0
    ensures ToInt32(0x8000_0000) == -0x8000_0000 && ToInt32(0xffff_ffff) == -1
  {}
}
