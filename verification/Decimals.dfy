/** Numbers written in decimal, padded with zeros to a width. */
module Decimals {
  import opened Orders

  function Digit(n: nat): char
    requires n < 10
  {
    '0' + n as char
  }

  function Decimal(n: nat): (text: string)
    ensures text != []
  {
    if n < 10 then [Digit(n)] else Decimal(n / 10) + [Digit(n % 10)]
  }

  function Zeros(k: nat): (text: string)
    ensures |text| == k
  {
    if k == 0 then [] else Zeros(k - 1) + ['0']
  }

  /** At least `width` characters, zeros on the left. */
  function Padded(width: nat, n: nat): string {
    var text := Decimal(n);
    (if |text| < width then Zeros(width - |text|) else []) + text
  }

  function Power(width: nat): nat {
    if width == 0 then 1 else 10 * Power(width - 1)
  }

  /** Exactly `width` characters, the lowest digits of `n`. */
  function Fixed(width: nat, n: nat): (text: string)
    ensures |text| == width
  {
    if width == 0 then [] else Fixed(width - 1, n / 10) + [Digit(n % 10)]
  }

  lemma {:induction false} FixedZero(width: nat)
    ensures Fixed(width, 0) == Zeros(width)
  {
    if width > 0 {
      FixedZero(width - 1);
    }
  }

  /** A number that fits its width takes exactly that many characters. */
  lemma {:induction false} PaddedIsFixed(width: nat, n: nat)
    requires 0 < width && n < Power(width)
    ensures Padded(width, n) == Fixed(width, n)
  {
    if n < 10 {
      FixedZero(width - 1);
    } else {
      PaddedIsFixed(width - 1, n / 10);
      assert Decimal(n) == Decimal(n / 10) + [Digit(n % 10)];
      assert Padded(width, n) == Padded(width - 1, n / 10) + [Digit(n % 10)];
    }
  }

  lemma Joining(a: string, b: string, c: string, d: string)
    requires |a| == |c|
    ensures CompareTexts(a + b, c + d) == Or(CompareTexts(a, c), CompareTexts(b, d))
  {
    LexConcat(CompareChars, a, b, c, d);
  }

  lemma DigitsCompare(m: nat, n: nat)
    requires m < 10 && n < 10
    ensures CompareTexts([Digit(m)], [Digit(n)]) == CompareInts(m, n)
  {
    assert CompareChars(Digit(m), Digit(n)) == CompareInts(m, n);
    assert Lexicographic(CompareChars, [Digit(m)][1..], [Digit(n)][1..]) == Equal;
  }

  /** Numbers that fit a width compare as texts the way they do as numbers. */
  lemma {:induction false} PaddedCompares(width: nat, m: nat, n: nat)
    requires 0 < width && m < Power(width) && n < Power(width)
    ensures |Padded(width, m)| == width && |Padded(width, n)| == width
    ensures CompareTexts(Padded(width, m), Padded(width, n)) == CompareInts(m, n)
  {
    PaddedIsFixed(width, m);
    PaddedIsFixed(width, n);
    FixedCompares(width, m, n);
  }

  lemma {:induction false} FixedCompares(width: nat, m: nat, n: nat)
    requires m < Power(width) && n < Power(width)
    ensures CompareTexts(Fixed(width, m), Fixed(width, n)) == CompareInts(m, n)
  {
    if width > 0 {
      FixedCompares(width - 1, m / 10, n / 10);
      DigitsCompare(m % 10, n % 10);
      Joining(Fixed(width - 1, m / 10), [Digit(m % 10)], Fixed(width - 1, n / 10), [Digit(n % 10)]);
    }
  }

  /** The same with more text after either number. */
  lemma PaddedThen(width: nat, m: nat, n: nat, a: string, b: string)
    requires 0 < width && m < Power(width) && n < Power(width)
    ensures CompareTexts(Padded(width, m) + a, Padded(width, n) + b) == Or(CompareInts(m, n), CompareTexts(a, b))
  {
    PaddedCompares(width, m, n);
    Joining(Padded(width, m), a, Padded(width, n), b);
  }

  /** The number a string of digits spells, most significant first. */
  function Spelled(base: nat, digits: seq<nat>): nat {
    if digits == [] then 0 else Spelled(base, digits[..|digits| - 1]) * base + digits[|digits| - 1]
  }

  lemma SpelledSnoc(base: nat, digits: seq<nat>, d: nat)
    ensures Spelled(base, digits + [d]) == Spelled(base, digits) * base + d
  {
    assert (digits + [d])[..|digits|] == digits;
  }

  predicate AreDigits(text: string) {
    forall i :: 0 <= i < |text| ==> '0' <= text[i] <= '9'
  }

  function DigitValues(text: string): seq<nat>
    requires AreDigits(text)
  {
    seq(|text|, i requires 0 <= i < |text| => text[i] as int - '0' as int)
  }

  lemma {:induction false} FixedSpells(width: nat, n: nat)
    requires n < Power(width)
    ensures AreDigits(Fixed(width, n))
    ensures Spelled(10, DigitValues(Fixed(width, n))) == n
  {
    if width > 0 {
      FixedSpells(width - 1, n / 10);
      var front := Fixed(width - 1, n / 10);
      assert DigitValues(Fixed(width, n)) == DigitValues(front) + [n % 10];
      SpelledSnoc(10, DigitValues(front), n % 10);
    }
  }
}
