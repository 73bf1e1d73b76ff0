/**
 * app/utils/generators.py: account numbers drawn until one is unused, and
 * 16-digit card numbers whose last digit is the Luhn check digit of the
 * first fifteen. The random digits are inputs: one 10-digit draw per attempt
 * for account numbers, one 15-digit draw for a card number.
 */
module Generators {
  import opened Wrappers
  import opened Records
  import opened Db
  import Validators

  const AccountNumberLength := 10
  const CardDrawLength := 15
  const CardNumberLength := 16

  /** A draw of `n` values of random.randint(0, 9). */
  predicate IsDraw(ds: seq<int>, n: nat) {
    |ds| == n && AllDigits(ds)
  }

  predicate AllDigits(ds: seq<int>) {
    forall i | 0 <= i < |ds| :: 0 <= ds[i] <= 9
  }

  /** `n` characters, each an ASCII digit. */
  predicate IsDigitString(s: string, n: nat) {
    |s| == n && forall i | 0 <= i < |s| :: Validators.IsAsciiDigit(s[i])
  }

  /** str(d) for a decimal digit. */
  function DigitChar(d: int): (c: char)
    requires 0 <= d <= 9
    ensures Validators.IsAsciiDigit(c)
  {
    ('0' as int + d) as char
  }

  /** The numeric value of an ASCII digit. */
  function DigitValue(c: char): (d: int)
    ensures Validators.IsAsciiDigit(c) ==> 0 <= d <= 9
  {
    c as int - '0' as int
  }

  /** `''.join(map(str, ds))` */
  function DigitString(ds: seq<int>): (s: string)
    requires AllDigits(ds)
    ensures |s| == |ds|
    ensures forall i | 0 <= i < |ds| :: Validators.IsAsciiDigit(s[i]) && DigitValue(s[i]) == ds[i]
  {
    seq(|ds|, i requires 0 <= i < |ds| => DigitChar(ds[i]))
  }

  // ------------------------------------------------------------ account numbers

  /**
   * generate_account_number, over the attempts the source's `while True` loop
   * would make: the first candidate no account holds yet, or None when every
   * given candidate is taken (where the source would keep drawing).
   */
  method GenerateAccountNumber(db: Database, candidates: seq<seq<int>>) returns (number: Option<string>)
    requires forall k | 0 <= k < |candidates| :: |candidates[k]| == AccountNumberLength && AllDigits(candidates[k])
    ensures number.Some? ==> IsDigitString(number.value, AccountNumberLength)
    ensures number.Some? ==> !NumberTaken(db.accounts, number.value)
    ensures number.Some? ==>
      exists k | 0 <= k < |candidates| :: number.value == DigitString(candidates[k])
        && forall j | 0 <= j < k :: NumberTaken(db.accounts, DigitString(candidates[j]))
    ensures number.None? ==> forall k | 0 <= k < |candidates| :: NumberTaken(db.accounts, DigitString(candidates[k]))
  {
    var k := 0;
    while k < |candidates|
      invariant 0 <= k <= |candidates|
      invariant forall j | 0 <= j < k :: NumberTaken(db.accounts, DigitString(candidates[j]))
    {
      var candidate := DigitString(candidates[k]);
      var existing := FindByNumber(db.accounts, candidate);
      if existing.None? {
        return Some(candidate);
      }
      k := k + 1;
    }
    return None;
  }

  // ------------------------------------------------------------ card numbers

  /** The sum of the decimal digits of `n`. */
  function DigitSum(n: nat): nat {
    if n < 10 then n else n % 10 + DigitSum(n / 10)
  }

  /** A doubled digit's contribution: `2d` below 10, else `2d - 9`, which is its digit sum. */
  function Doubled(d: int): (r: int)
    requires 0 <= d <= 9
    ensures 0 <= r <= 9
    ensures r == DigitSum(2 * d)
  {
    var doubled := d * 2;
    if doubled < 10 then doubled else doubled - 9
  }

  /** What the digit at index `i` of reversed(digits) adds to the checksum. */
  function Contribution(d: int, i: nat): int
    requires 0 <= d <= 9
  {
    if i % 2 == 0 then Doubled(d) else d
  }

  /** `checksum` after the first `n` rounds of the loop over enumerate(reversed(digits)). */
  function Checksum(digits: seq<int>, n: nat): int
    requires n <= |digits|
    requires forall i | 0 <= i < |digits| :: 0 <= digits[i] <= 9
  {
    if n == 0 then 0 else Checksum(digits, n - 1) + Contribution(digits[|digits| - n], n - 1)
  }

  /** `(10 - checksum % 10) % 10`: a digit that brings the checksum to a multiple of 10. */
  function CheckDigit(digits: seq<int>): (c: int)
    requires forall i | 0 <= i < |digits| :: 0 <= digits[i] <= 9
    ensures 0 <= c <= 9
    ensures (Checksum(digits, |digits|) + c) % 10 == 0
  {
    (10 - Checksum(digits, |digits|) % 10) % 10
  }

  /** The card number generate_card_number builds from its fifteen drawn digits. */
  function CardNumber(digits: seq<int>): string
    requires IsDraw(digits, CardDrawLength)
  {
    DigitString(digits + [CheckDigit(digits)])
  }

  /**
   * The Luhn scheme of ISO/IEC 7812-1, Annex B, as a validator reads a number:
   * from the rightmost digit (position 0), every digit at an odd position is
   * doubled and replaced by the sum of its digits.
   */
  function LuhnWeight(d: int, position: nat): int
    requires 0 <= d <= 9
  {
    if position % 2 == 1 then DigitSum(2 * d) else d
  }

  /** The weighted sum of the rightmost `n` digits of `number`. */
  function LuhnSum(number: seq<int>, n: nat): int
    requires n <= |number|
    requires forall i | 0 <= i < |number| :: 0 <= number[i] <= 9
  {
    if n == 0 then 0 else LuhnSum(number, n - 1) + LuhnWeight(number[|number| - n], n - 1)
  }

  predicate LuhnValid(number: seq<int>)
    requires forall i | 0 <= i < |number| :: 0 <= number[i] <= 9
  {
    LuhnSum(number, |number|) % 10 == 0
  }

  /** The digit values of a string of ASCII digits: the inverse of DigitString. */
  function Digits(s: string): (ds: seq<int>)
    requires forall i | 0 <= i < |s| :: Validators.IsAsciiDigit(s[i])
    ensures |ds| == |s| && AllDigits(ds)
    ensures DigitString(ds) == s
  {
    var ds := seq(|s|, i requires 0 <= i < |s| => DigitValue(s[i]));
    assert forall i | 0 <= i < |s| :: DigitChar(ds[i]) == s[i];
    ds
  }

  /** Rendering digits and reading them back gives the digits. */
  lemma DigitsOfDigitString(ds: seq<int>)
    requires AllDigits(ds)
    ensures Digits(DigitString(ds)) == ds
  {
    var r := Digits(DigitString(ds));
    assert forall i | 0 <= i < |ds| :: r[i] == ds[i];
  }

  /** The number a string of decimal digits spells, most significant digit first. */
  function DecimalValue(s: string): int {
    if s == [] then 0 else DecimalValue(s[..|s| - 1]) * 10 + DigitValue(s[|s| - 1])
  }

  /**
   * Appending a check digit shifts every position by one, so the validator's
   * sum over the longer number is that digit plus the generator's checksum.
   */
  lemma {:induction false} LuhnSumAppended(digits: seq<int>, c: int, k: nat)
    requires forall i | 0 <= i < |digits| :: 0 <= digits[i] <= 9
    requires 0 <= c <= 9 && k <= |digits|
    ensures LuhnSum(digits + [c], k + 1) == c + Checksum(digits, k)
  {
    var number := digits + [c];
    if k > 0 {
      LuhnSumAppended(digits, c, k - 1);
      assert number[|number| - (k + 1)] == digits[|digits| - k];
    }
  }

  /** A generated card number is 16 ASCII digits, starts with the draw, and passes Luhn validation. */
  lemma CardNumberIsLuhnValid(digits: seq<int>)
    requires IsDraw(digits, CardDrawLength)
    ensures IsDigitString(CardNumber(digits), CardNumberLength)
    ensures CardNumber(digits)[..CardDrawLength] == DigitString(digits)
    ensures DigitValue(CardNumber(digits)[CardDrawLength]) == CheckDigit(digits)
    ensures LuhnValid(Digits(CardNumber(digits)))
  {
    var all := digits + [CheckDigit(digits)];
    var number := CardNumber(digits);
    assert Digits(number) == all;
    LuhnSumAppended(digits, CheckDigit(digits), |digits|);
  }

  /** generate_card_number, with the fifteen random digits as input. */
  method GenerateCardNumber(digits: seq<int>) returns (number: string)
    requires IsDraw(digits, CardDrawLength)
    ensures number == CardNumber(digits)
    ensures IsDigitString(number, CardNumberLength) && number[..CardDrawLength] == DigitString(digits)
    ensures LuhnValid(Digits(number))
  {
    var checksum := 0;
    for i := 0 to |digits|
      invariant checksum == Checksum(digits, i)
    {
      var digit := digits[|digits| - 1 - i];
      if i % 2 == 0 {
        var doubled := digit * 2;
        checksum := checksum + if doubled < 10 then doubled else doubled - 9;
      } else {
        checksum := checksum + digit;
      }
    }
    var checkDigit := (10 - checksum % 10) % 10;
    number := DigitString(digits + [checkDigit]);
    CardNumberIsLuhnValid(digits);
  }
}
