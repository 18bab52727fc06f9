/** Decimal numerals: how Rust prints an unsigned integer and how it reads one back. */
module Decimal {
  import opened Options

  predicate IsDigit(c: char) { '0' <= c <= '9' }

  predicate AllDigits(s: string) { forall i :: 0 <= i < |s| ==> IsDigit(s[i]) }

  function DigitOf(n: nat): (c: char)
    requires n < 10
    ensures IsDigit(c)
  {
    (n + '0' as int) as char
  }

  function ValueOf(c: char): (n: nat)
    requires IsDigit(c)
    ensures n < 10
  {
    c as int - '0' as int
  }

  /** `{}` of an unsigned integer. */
  function Print(n: nat): (s: string)
    ensures s != [] && AllDigits(s)
  {
    if n < 10 then [DigitOf(n)] else Print(n / 10) + [DigitOf(n % 10)]
  }

  function Value(s: string): nat
    requires AllDigits(s)
  {
    if s == [] then 0 else 10 * Value(s[..|s| - 1]) + ValueOf(s[|s| - 1])
  }

  lemma {:induction false} ValueOfPrint(n: nat)
    ensures Value(Print(n)) == n
  {
    if n >= 10 {
      var s := Print(n);
      assert s[..|s| - 1] == Print(n / 10);
      ValueOfPrint(n / 10);
    }
  }

  /** `str::parse` for an unsigned type with the given maximum: an optional plus sign, at least one
      digit, nothing else, no overflow. */
  function Parse(s: string, max: nat): Option<nat> {
    var digits := if s != [] && s[0] == '+' then s[1..] else s;
    if digits != [] && AllDigits(digits) && Value(digits) <= max then Some(Value(digits)) else None
  }

  lemma ParsePrint(n: nat, max: nat)
    requires n <= max
    ensures Parse(Print(n), max) == Some(n)
  {
    ValueOfPrint(n);
    assert IsDigit(Print(n)[0]);
  }

  // ----- Which numerals are read as which number -----

  function Zeros(n: nat): (s: string)
    ensures |s| == n && forall i :: 0 <= i < n ==> s[i] == '0'
  {
    seq(n, i => '0')
  }

  lemma ValueSnoc(s: string, c: char)
    requires AllDigits(s) && IsDigit(c)
    ensures AllDigits(s + [c]) && Value(s + [c]) == 10 * Value(s) + ValueOf(c)
  {
    assert (s + [c])[..|s|] == s;
  }

  lemma PrintUnfolds(n: nat, c: char)
    requires IsDigit(c)
    ensures Print(10 * n + ValueOf(c)) == (if n == 0 then [] else Print(n)) + [c]
  {
  }

  /** Every numeral is the printed form of its value, but for leading zeros. */
  lemma {:induction false} ZerosThenPrint(s: string) returns (zeros: nat)
    requires s != [] && AllDigits(s)
    ensures s == Zeros(zeros) + Print(Value(s))
    decreases |s|
  {
    var front, c := s[..|s| - 1], s[|s| - 1];
    assert s == front + [c];
    PrintUnfolds(Value(front), c);
    if front == [] {
      zeros := 0;
    } else {
      zeros := ZerosThenPrint(front);
      if Value(front) == 0 {
        assert Print(0) == "0";
        zeros := zeros + 1;
      }
    }
  }

  lemma {:induction false} ValueOfZeros(zeros: nat, digits: string)
    requires AllDigits(digits)
    ensures AllDigits(Zeros(zeros) + digits) && Value(Zeros(zeros) + digits) == Value(digits)
    decreases |digits|, zeros
  {
    if digits == [] {
      assert Zeros(zeros) + digits == Zeros(zeros);
      if zeros > 0 {
        ValueOfZeros(zeros - 1, digits);
        assert Zeros(zeros - 1) + digits == Zeros(zeros - 1);
        assert Zeros(zeros) == Zeros(zeros - 1) + ['0'];
        ValueSnoc(Zeros(zeros - 1), '0');
      }
    } else {
      var front, c := digits[..|digits| - 1], digits[|digits| - 1];
      ValueOfZeros(zeros, front);
      ValueSnoc(Zeros(zeros) + front, c);
      assert (Zeros(zeros) + front) + [c] == Zeros(zeros) + digits;
      assert digits == front + [c];
      ValueSnoc(front, c);
    }
  }

  /** The ways to write a number: with or without a plus sign, and with any number of leading zeros. */
  function Spelling(n: nat, plus: bool, zeros: nat): string {
    (if plus then "+" else "") + (Zeros(zeros) + Print(n))
  }

  lemma SpellingParses(n: nat, plus: bool, zeros: nat, max: nat)
    requires n <= max
    ensures Parse(Spelling(n, plus, zeros), max) == Some(n)
  {
    var digits := Zeros(zeros) + Print(n);
    ValueOfZeros(zeros, Print(n));
    ValueOfPrint(n);
    assert IsDigit(digits[0]);
    assert Spelling(n, plus, zeros) == (if plus then "+" + digits else digits);
    assert ("+" + digits)[1..] == digits;
  }

  lemma ParsedSpelling(s: string, max: nat, n: nat) returns (plus: bool, zeros: nat)
    requires Parse(s, max) == Some(n)
    ensures n <= max && s == Spelling(n, plus, zeros)
  {
    plus := s[0] == '+';
    zeros := ZerosThenPrint(if plus then s[1..] else s);
    assert plus ==> s == "+" + s[1..];
    assert !plus ==> s == "" + s;
  }

  /** `str::parse` reads exactly the spellings of the numbers up to the maximum. */
  lemma ParseIff(s: string, max: nat, n: nat)
    ensures Parse(s, max) == Some(n) <==> n <= max && exists plus, zeros :: s == Spelling(n, plus, zeros)
  {
    if Parse(s, max) == Some(n) {
      var plus, zeros := ParsedSpelling(s, max, n);
    }
    if n <= max {
      if plus, zeros :| s == Spelling(n, plus, zeros) { SpellingParses(n, plus, zeros, max); }
    }
  }
}
