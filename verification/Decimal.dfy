/** Decimal text of u32 values: the overflow-checked parser and the two printers. */
module Decimal {
  import opened Machine

  const ZERO: u8 := 48
  const NINE: u8 := 57

  predicate IsDigit(byte: u8) {
    ZERO <= byte <= NINE
  }

  predicate AllDigits(text: seq<u8>) {
    forall i | 0 <= i < |text| :: IsDigit(text[i])
  }

  /** The number a text of digits writes. */
  function Value(text: seq<u8>): nat
    requires AllDigits(text)
  {
    if text == [] then 0 else 10 * Value(text[..|text| - 1]) + (text[|text| - 1] - ZERO) as int
  }

  // ---- The parser -----------------------------------------------------------

  datatype Parsed = Number(value: u32) | NotDecimal | ExceedsU32

  /** How many bytes at the start are digits. */
  function LeadingDigits(text: seq<u8>): (n: nat)
    ensures n <= |text| && AllDigits(text[..n])
    ensures n < |text| ==> !IsDigit(text[n])
  {
    if text == [] || !IsDigit(text[0]) then 0
    else
      var rest := LeadingDigits(text[1..]);
      assert text[..1 + rest] == [text[0]] + text[1..][..rest];
      1 + rest
  }

  lemma {:induction false} ValueOfPrefix(text: seq<u8>, n: nat)
    requires AllDigits(text) && n <= |text|
    ensures Value(text[..n]) <= Value(text)
  {
    if n < |text| {
      ValueOfPrefix(text[..|text| - 1], n);
      assert text[..|text| - 1][..n] == text[..n];
    } else {
      assert text[..n] == text;
    }
  }

  /** `parse_decimal_u32`; a panic is an error result. The text is a number if it is
      non-empty, all digits and at most 2^32 - 1; otherwise the first fault decides. */
  method ParseDecimalU32(text: seq<u8>) returns (result: Parsed)
    ensures result.Number? <==> text != [] && AllDigits(text) && Value(text) <= U32_MAX
    ensures result.Number? ==> AllDigits(text) && result.value == Value(text)
    ensures result.ExceedsU32? <==> Value(text[..LeadingDigits(text)]) > U32_MAX
  {
    if text == [] {
      return NotDecimal;
    }
    var parsed: u32 := 0;
    var index := 0;
    while index < |text|
      invariant 0 <= index <= |text|
      invariant AllDigits(text[..index]) && parsed == Value(text[..index])
    {
      var byte := text[index];
      if byte < ZERO || byte > NINE {
        LeadingDigitsAre(text, index);
        return NotDecimal;
      }
      var digit := byte - ZERO;
      assert text[..index + 1][..index] == text[..index];
      if parsed > (U32_MAX - digit) / 10 {
        ValueExceeds(text, index + 1);
        return ExceedsU32;
      }
      parsed := parsed as int * 10 + digit;
      index := index + 1;
    }
    assert text[..index] == text;
    LeadingDigitsAre(text, index);
    result := Number(parsed);
  }

  lemma {:induction false} LeadingDigitsAtLeast(text: seq<u8>, n: nat)
    requires n <= |text| && AllDigits(text[..n])
    ensures n <= LeadingDigits(text)
  {
    if n == 0 {
    } else {
      assert IsDigit(text[..n][0]);
      assert text[1..][..n - 1] == text[..n][1..];
      LeadingDigitsAtLeast(text[1..], n - 1);
    }
  }

  lemma {:induction false} LeadingDigitsAre(text: seq<u8>, n: nat)
    requires n <= |text| && AllDigits(text[..n])
    requires n < |text| ==> !IsDigit(text[n])
    ensures LeadingDigits(text) == n
  {
    if n == 0 {
    } else {
      assert IsDigit(text[..n][0]);
      assert text[1..][..n - 1] == text[..n][1..];
      LeadingDigitsAre(text[1..], n - 1);
    }
  }

  lemma ValueExceeds(text: seq<u8>, n: nat)
    requires n <= |text| && AllDigits(text[..n]) && Value(text[..n]) > U32_MAX
    ensures Value(text[..LeadingDigits(text)]) > U32_MAX
    ensures AllDigits(text) ==> Value(text) > U32_MAX
  {
    var all := LeadingDigits(text);
    LeadingDigitsAtLeast(text, n);
    ValueOfPrefix(text[..all], n);
    assert text[..all][..n] == text[..n];
    if AllDigits(text) {
      LeadingDigitsAre(text, |text|);
      assert text[..all] == text;
    }
  }

  // ---- The printers ---------------------------------------------------------

  /** The shortest decimal text of a number. */
  function Digits(n: nat): (text: seq<u8>)
    ensures text != []
  {
    if n < 10 then [ZERO + n] else Digits(n / 10) + [ZERO + n % 10]
  }

  /** `put_u32` fills a buffer from its end. */
  method PutU32(number: u32) returns (text: seq<u8>)
    ensures text == Digits(number)
  {
    var n: nat := number;
    var buf := new u8[10](_ => 0);
    if n == 0 {
      buf[0] := ZERO;
      assert buf[..1] == [ZERO];
      return buf[..1];
    }
    TenDigits(number, 10);
    var i := FillFromEnd(buf, n);
    text := buf[i..];
  }

  /** The loop of `put_u32`. */
  method FillFromEnd(buf: array<u8>, number: nat) returns (i: nat)
    requires 0 < number < Pow10(buf.Length)
    modifies buf
    ensures i <= buf.Length && buf[i..] == Digits(number)
  {
    var n := number;
    i := buf.Length;
    ghost var done: seq<u8> := [];
    while n > 0
      invariant 0 <= i <= buf.Length && |done| == buf.Length - i
      invariant 0 <= n < Pow10(i)
      invariant forall k | i <= k < buf.Length :: buf[k] == done[k - i]
      invariant Digits(number) == Front(n) + done
    {
      TenthFits(n, i);
      var digit: u8 := ZERO + n % 10;
      FrontStep(n, done);
      i := i - 1;
      buf[i] := digit;
      done := [digit] + done;
      n := n / 10;
    }
    assert buf[i..] == done;
  }

  lemma TenthFits(n: nat, digits: nat)
    requires n < Pow10(digits)
    ensures n > 0 ==> digits > 0
    ensures digits > 0 ==> n / 10 < Pow10(digits - 1)
  {
  }

  /** The digits that are still to be written. */
  function Front(n: nat): seq<u8> {
    if n == 0 then [] else Digits(n)
  }

  lemma FrontAndLast(n: nat)
    ensures Digits(n) == Front(n / 10) + [ZERO + n % 10]
  {
  }

  lemma FrontStep(n: nat, done: seq<u8>)
    requires n > 0
    ensures Front(n) + done == Front(n / 10) + ([ZERO + n % 10] + done)
  {
    FrontAndLast(n);
  }

  /** `write_u32` fills a buffer from its start and emits it in reverse. */
  method WriteU32(number: u32) returns (text: seq<u8>)
    ensures text == Digits(number)
  {
    var digits := new u8[10](_ => 0);
    TenDigits(number, 10);
    var len := FillFromStart(digits, number);
    text := EmitReversed(digits, len);
  }

  /** The first loop of `write_u32`. */
  method FillFromStart(digits: array<u8>, number: nat) returns (len: nat)
    requires digits.Length > 0 && number < Pow10(digits.Length)
    modifies digits
    ensures len <= digits.Length && Reversed(digits[..len]) == Digits(number)
  {
    var value := number;
    len := 0;
    ghost var done: seq<u8> := [];
    while true
      invariant 0 <= len < digits.Length && |done| == len
      invariant 0 <= value < Pow10(digits.Length - len)
      invariant forall k | 0 <= k < len :: digits[k] == done[k]
      invariant Digits(number) == Digits(value) + Reversed(done)
      decreases digits.Length - len
    {
      TenthFits(value, digits.Length - len);
      FrontAndLast(value);
      var digit: u8 := ZERO + value % 10;
      digits[len] := digit;
      ReversedSnoc(done, digit);
      done := done + [digit];
      len := len + 1;
      value := value / 10;
      if value == 0 {
        assert digits[..len] == done;
        break;
      }
    }
  }

  /** The loop that writes the digits out, last one first. */
  method EmitReversed(digits: array<u8>, len: nat) returns (text: seq<u8>)
    requires len <= digits.Length
    ensures text == Reversed(digits[..len])
  {
    text := [];
    var k := len;
    while k > 0
      invariant 0 <= k <= len
      invariant text + Reversed(digits[..k]) == Reversed(digits[..len])
    {
      k := k - 1;
      assert digits[..k + 1] == digits[..k] + [digits[k]];
      ReversedSnoc(digits[..k], digits[k]);
      text := text + [digits[k]];
    }
    assert digits[..0] == [];
  }

  function Pow10(n: nat): nat {
    if n == 0 then 1 else 10 * Pow10(n - 1)
  }

  function Reversed(s: seq<u8>): seq<u8> {
    if s == [] then [] else Reversed(s[1..]) + [s[0]]
  }

  lemma {:induction false} ReversedSnoc(s: seq<u8>, x: u8)
    ensures Reversed(s + [x]) == [x] + Reversed(s)
  {
    if s == [] {
      assert [x][1..] == [];
    } else {
      ReversedSnoc(s[1..], x);
      assert (s + [x])[1..] == s[1..] + [x];
    }
  }

  lemma TenDigits(n: u32, digits: nat)
    requires digits == 10
    ensures n < Pow10(digits)
  {
    assert Pow10(5) == 100_000;
    assert Pow10(10) == 10 * 10 * 10 * 10 * 10 * Pow10(5);
  }

  // ---- What the texts are ---------------------------------------------------

  /** The printed text writes the number, in at most as many digits as needed and without
      a leading zero except for 0 itself. */
  lemma {:induction false} DigitsAreCanonical(n: nat)
    ensures AllDigits(Digits(n))
    ensures Value(Digits(n)) == n
    ensures Digits(n)[0] == ZERO ==> Digits(n) == [ZERO]
  {
    if n >= 10 {
      DigitsAreCanonical(n / 10);
      assert Digits(n)[..|Digits(n)| - 1] == Digits(n / 10);
    }
  }

  lemma {:induction false} DigitCount(n: nat, bound: nat)
    requires bound > 0 && n < Pow10(bound)
    ensures |Digits(n)| <= bound
  {
    if n >= 10 {
      DigitCount(n / 10, bound - 1);
    }
  }

  /** A canonical text is the printed text of its value, so printing inverts parsing too. */
  lemma {:induction false} CanonicalTextIsPrinted(text: seq<u8>)
    requires text != [] && AllDigits(text)
    requires text[0] == ZERO ==> |text| == 1
    ensures Digits(Value(text)) == text
  {
    if |text| == 1 {
      assert text[..0] == [];
    } else {
      var init := text[..|text| - 1];
      CanonicalTextIsPrinted(init);
      LeadingDigitMatters(init);
      assert text == init + [text[|text| - 1]];
    }
  }

  lemma {:induction false} LeadingDigitMatters(text: seq<u8>)
    requires text != [] && AllDigits(text) && text[0] != ZERO
    ensures Value(text) > 0
  {
    if |text| > 1 {
      LeadingDigitMatters(text[..|text| - 1]);
    } else {
      assert text[..0] == [];
    }
  }

  /** Parsing what either printer wrote gives the number back. */
  method RoundTrip(number: u32) returns (put: Parsed, written: Parsed)
    ensures put == written == Number(number)
  {
    var a := PutU32(number);
    var b := WriteU32(number);
    DigitsAreCanonical(number);
    assert AllDigits(a) && AllDigits(b);
    put := ParseDecimalU32(a);
    written := ParseDecimalU32(b);
  }
}
