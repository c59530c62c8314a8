/**
 * ISBN-13 generation (`generate_isbn13` in book/models.py).
 *
 * The two random draws of the source, the three-digit prefix and the integer
 * body, are parameters here. The check digit is the ISO 2108 / EAN-13 one:
 * weights 1 and 3 alternating from the left, modulus 10.
 *
 * The generator (GeneratedIsbn, GenerateIsbn13) is defined once, for any
 * body; the two draw ranges are stated in the lemmas about it. As written, the
 * source draws a TEN-digit body (BodyDrawAsWritten), so that its "12-digit"
 * base has 13 digits and the returned string 14 characters
 * (AsWrittenIsFourteenLong). Those are the draws `Book.save` uses in this
 * model, so a saved blank ISBN becomes a 14-character value
 * (BookModels.BookSaveAsWritten). A nine-digit body (BodyDraw) gives an
 * ISBN-13 (GeneratedIsbnChecksum); it only shows what a fixed save would
 * store (BookModels.BookSaveCorrected).
 */
module Isbn {

  predicate IsDigit(c: char) { '0' <= c <= '9' }

  predicate AllDigits(s: string) { forall i :: 0 <= i < |s| ==> IsDigit(s[i]) }

  lemma AllDigitsConcat(s: string, t: string)
    requires AllDigits(s) && AllDigits(t)
    ensures AllDigits(s + t)
  {
    forall i | 0 <= i < |s + t| ensures IsDigit((s + t)[i]) {
      if i >= |s| { assert (s + t)[i] == t[i - |s|]; }
    }
  }

  /** `int(c)` for a decimal digit character. */
  function DigitValue(c: char): (d: nat)
    requires IsDigit(c)
    ensures d < 10
  {
    c as int - '0' as int
  }

  /** `str(d)` for a single decimal digit. */
  function DigitChar(d: nat): (c: char)
    requires d < 10
    ensures IsDigit(c) && DigitValue(c) == d
  {
    ('0' as int + d) as char
  }

  function Pow10(k: nat): (p: nat)
    ensures p >= 1
  {
    if k == 0 then 1 else 10 * Pow10(k - 1)
  }

  /** `str(n)` for a non-negative integer: decimal, no leading zeros. */
  function DecimalString(n: nat): (s: string)
    ensures |s| >= 1 && AllDigits(s)
  {
    if n < 10 then [DigitChar(n)] else DecimalString(n / 10) + [DigitChar(n % 10)]
  }

  /** `int(s)` for a string of decimal digits. */
  function DecimalValue(s: string): (n: nat)
    requires AllDigits(s)
  {
    if |s| == 0 then 0 else 10 * DecimalValue(s[..|s| - 1]) + DigitValue(s[|s| - 1])
  }

  /** `int(str(n)) == n`: the decimal rendering loses nothing. */
  lemma {:induction false} DecimalRoundTrip(n: nat)
    ensures DecimalValue(DecimalString(n)) == n
  {
    if n >= 10 {
      var s := DecimalString(n);
      assert s[..|s| - 1] == DecimalString(n / 10);
      DecimalRoundTrip(n / 10);
    }
  }

  /** A number in [10^(k-1), 10^k) has exactly k decimal digits, the first of them non-zero. */
  lemma {:induction false} DecimalLength(n: nat, k: nat)
    requires 1 <= k && Pow10(k - 1) <= n < Pow10(k)
    ensures |DecimalString(n)| == k
    ensures DecimalString(n)[0] != '0'
  {
    if k == 1 {
      assert n < 10;
    } else {
      assert Pow10(k - 1) == 10 * Pow10(k - 2);
      assert Pow10(k) == 10 * Pow10(k - 1);
      assert n >= 10;
      DecimalLength(n / 10, k - 1);
      assert DecimalString(n)[0] == DecimalString(n / 10)[0];
    }
  }

  /** Weight of the digit at a 0-based position: 1 at even positions, 3 at odd ones. */
  function Weight(i: nat): (w: nat)
    ensures w == 1 || w == 3
  {
    if i % 2 == 0 then 1 else 3
  }

  /** Sum of the first k digits of s, each multiplied by the weight of its position. */
  function WeightedSum(s: string, k: nat): (sum: nat)
    requires k <= |s| && AllDigits(s)
  {
    if k == 0 then 0 else WeightedSum(s, k - 1) + Weight(k - 1) * DigitValue(s[k - 1])
  }

  /** The weighted sum of a prefix does not depend on what follows it. */
  lemma {:induction false} WeightedSumPrefix(s: string, t: string, k: nat)
    requires AllDigits(s) && AllDigits(t) && k <= |s| <= |t| && s == t[..|s|]
    ensures WeightedSum(s, k) == WeightedSum(t, k)
  {
    if k > 0 {
      WeightedSumPrefix(s, t, k - 1);
    }
  }

  /** The ISBN-13 validity rule: thirteen digits whose weighted sum is a multiple of 10. */
  predicate ChecksumValid(s: string)
  {
    |s| == 13 && AllDigits(s) && WeightedSum(s, 13) % 10 == 0
  }

  /** Adding `(10 - t % 10) % 10` to t reaches the next multiple of ten. */
  lemma CompletesToTen(t: nat)
    ensures (t + (10 - t % 10) % 10) % 10 == 0
  {
    var q, r := t / 10, t % 10;
    assert t == 10 * q + r;
    if r != 0 {
      assert t + (10 - r) % 10 == 10 * (q + 1);
    }
  }

  /** `(10 - total % 10) % 10`, where total is the weighted sum of all of base. */
  function CheckDigit(base: string): (d: nat)
    requires AllDigits(base)
    ensures d < 10
    ensures (WeightedSum(base, |base|) + d) % 10 == 0
  {
    var total := WeightedSum(base, |base|);
    CompletesToTen(total);
    (10 - total % 10) % 10
  }

  /** A twelve-digit base followed by its check digit is a valid ISBN-13. */
  lemma CheckDigitCompletes(base: string)
    requires |base| == 12 && AllDigits(base)
    ensures ChecksumValid(base + [DigitChar(CheckDigit(base))])
  {
    var isbn := base + [DigitChar(CheckDigit(base))];
    AllDigitsConcat(base, [DigitChar(CheckDigit(base))]);
    WeightedSumPrefix(base, isbn, 12);
    assert WeightedSum(isbn, 13) == WeightedSum(base, 12) + DigitValue(isbn[12]);
  }

  /**
   * The checksum loop of `generate_isbn13`: walks the base digit by digit,
   * adding each digit at an even index once and each at an odd index three
   * times, then reduces the total to the check digit.
   */
  method ComputeCheckDigit(base: string) returns (checkDigit: nat)
    requires AllDigits(base)
    ensures checkDigit == CheckDigit(base)
  {
    var total := 0;
    for i := 0 to |base|
      invariant total == WeightedSum(base, i)
    {
      var n := DigitValue(base[i]);
      if i % 2 == 0 {
        total := total + n;
      } else {
        total := total + n * 3;
      }
    }
    checkDigit := (10 - total % 10) % 10;
  }

  predicate ValidPrefix(prefix: string) { prefix == "978" || prefix == "979" }

  /** The range the source draws the body from: `random.randint(10**9, 10**10 - 1)`. */
  predicate BodyDrawAsWritten(body: int) { Pow10(9) <= body <= Pow10(10) - 1 }

  /** The range that gives a twelve-digit base: `random.randint(10**8, 10**9 - 1)`. */
  predicate BodyDraw(body: int) { Pow10(8) <= body <= Pow10(9) - 1 }

  /** The base as the source builds it: the prefix followed by `str(body)`. */
  function BaseOf(prefix: string, body: nat): (base: string)
    requires ValidPrefix(prefix)
    ensures AllDigits(base)
  {
    AllDigitsConcat(prefix, DecimalString(body));
    prefix + DecimalString(body)
  }

  /** What `generate_isbn13` returns for the two draws: the base followed by its check digit. */
  function GeneratedIsbn(prefix: string, body: nat): (isbn: string)
    requires ValidPrefix(prefix)
  {
    var base := BaseOf(prefix, body);
    base + [DigitChar(CheckDigit(base))]
  }

  /** As written, the body is ten digits with a non-zero lead, so the base has thirteen and every
      generated value 14 characters: longer than an ISBN-13 and than the 13 characters the `isbn`
      column allows. */
  lemma AsWrittenIsFourteenLong(prefix: string, body: nat)
    requires ValidPrefix(prefix) && BodyDrawAsWritten(body)
    ensures |DecimalString(body)| == 10 && DecimalString(body)[0] != '0'
    ensures |BaseOf(prefix, body)| == 13
    ensures |GeneratedIsbn(prefix, body)| == 14
    ensures GeneratedIsbn(prefix, body)[..13] == prefix + DecimalString(body)
    ensures !ChecksumValid(GeneratedIsbn(prefix, body))
  {
    DecimalLength(body, 10);
    var isbn := GeneratedIsbn(prefix, body);
    assert isbn[..13] == BaseOf(prefix, body);
  }

  lemma TimesTen(n: nat, s: string)
    requires n >= 1 && DecimalString(n) == s
    ensures DecimalString(10 * n) == s + "0"
  {
  }

  lemma DecimalBillion()
    ensures DecimalString(1000000000) == "1000000000"
  {
    TimesTen(1, "1");
    TimesTen(10, "10");
    TimesTen(100, "100");
    TimesTen(1000, "1000");
    TimesTen(10000, "10000");
    TimesTen(100000, "100000");
    TimesTen(1000000, "1000000");
    TimesTen(10000000, "10000000");
    TimesTen(100000000, "100000000");
  }

  lemma WeightedSumExample(base: string)
    requires base == "9781000000000"
    ensures WeightedSum(base, 13) == 41
  {
    ZeroTail(base, 13);
  }

  lemma {:induction false} ZeroTail(base: string, k: nat)
    requires base == "9781000000000" && 4 <= k <= 13
    ensures WeightedSum(base, k) == 41
  {
    if k > 4 {
      ZeroTail(base, k - 1);
      assert base[k - 1] == '0';
    } else {
      assert WeightedSum(base, 1) == 9;
      assert WeightedSum(base, 2) == 30;
      assert WeightedSum(base, 3) == 38;
    }
  }

  lemma Pow10Values()
    ensures Pow10(9) == 1000000000 && Pow10(10) == 10000000000
  {
    assert Pow10(3) == 1000;
    assert Pow10(6) == 1000000;
  }

  lemma BaseExample()
    ensures BaseOf("978", 1000000000) == "9781000000000"
  {
    DecimalBillion();
  }

  /** The smallest draw of the source: "978" and 10^9 give "97810000000009". */
  lemma AsWrittenExample()
    ensures BodyDrawAsWritten(1000000000)
    ensures GeneratedIsbn("978", 1000000000) == "97810000000009"
  {
    Pow10Values();
    BaseExample();
    CheckDigitExample();
    assert DigitChar(9) == '9';
    assert "9781000000000" + ['9'] == "97810000000009";
  }

  lemma CheckDigitExample()
    ensures CheckDigit("9781000000000") == 9
  {
    WeightedSumExample("9781000000000");
  }

  /** Shape of a value drawn with a nine-digit body: 13 digits, the drawn prefix, a nine-digit body with a non-zero
      lead that reads back as the drawn number, and the check digit of the first twelve at the end. */
  lemma GeneratedIsbnShape(prefix: string, body: nat)
    requires ValidPrefix(prefix) && BodyDraw(body)
    ensures var isbn := GeneratedIsbn(prefix, body);
      && |isbn| == 13 && AllDigits(isbn)
      && isbn[..3] == prefix
      && isbn[..12] == prefix + DecimalString(body)
      && isbn[3] != '0'
      && DecimalValue(isbn[3..12]) == body
      && DigitValue(isbn[12]) == CheckDigit(isbn[..12])
  {
    var isbn := GeneratedIsbn(prefix, body);
    DecimalLength(body, 9);
    DecimalRoundTrip(body);
    AllDigitsConcat(BaseOf(prefix, body), [isbn[12]]);
    assert isbn[..12] == prefix + DecimalString(body);
    assert isbn[3..12] == DecimalString(body);
  }

  /** With a nine-digit body every generated value satisfies the ISBN-13 checksum. */
  lemma GeneratedIsbnChecksum(prefix: string, body: nat)
    requires ValidPrefix(prefix) && BodyDraw(body)
    ensures ChecksumValid(GeneratedIsbn(prefix, body))
  {
    DecimalLength(body, 9);
    CheckDigitCompletes(BaseOf(prefix, body));
  }

  /**
   * `generate_isbn13`, with its two random draws as parameters. Over the
   * source's ten-digit draws the result is 14 characters and fails the
   * checksum; over nine-digit draws it is a valid ISBN-13.
   */
  method GenerateIsbn13(prefix: string, body: nat) returns (isbn: string)
    requires ValidPrefix(prefix)
    ensures isbn == GeneratedIsbn(prefix, body)
    ensures BodyDrawAsWritten(body) ==> |isbn| == 14 && !ChecksumValid(isbn)
    ensures BodyDraw(body) ==> |isbn| == 13 && ChecksumValid(isbn)
  {
    var base := BaseOf(prefix, body);
    var checkDigit := ComputeCheckDigit(base);
    isbn := base + [DigitChar(checkDigit)];
    if BodyDrawAsWritten(body) {
      AsWrittenIsFourteenLong(prefix, body);
    }
    if BodyDraw(body) {
      GeneratedIsbnShape(prefix, body);
      GeneratedIsbnChecksum(prefix, body);
    }
  }
}
