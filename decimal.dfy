/**
 * Decimal text for unsigned integers as Rust's standard library reads and
 * writes it: `<u32 as FromStr>::from_str` / `<u64 as FromStr>::from_str`
 * (an optional `+`, then one or more ASCII digits, value within range) and
 * `to_string` (the canonical rendering, no sign and no leading zeros).
 */
module Decimal {
  import opened Common

  const U32Max: nat := 0xFFFF_FFFF
  const U64Max: nat := 0xFFFF_FFFF_FFFF_FFFF

  predicate IsAsciiDigit(c: char) {
    '0' <= c <= '9'
  }

  predicate AllDigits(s: string) {
    forall i :: 0 <= i < |s| ==> IsAsciiDigit(s[i])
  }

  /** One or more ASCII digits: the text matched by the regular expression `^\d+$`. */
  predicate IsDigitRun(s: string) {
    |s| >= 1 && AllDigits(s)
  }

  /** The text `to_string` produces: digits without a leading zero, except "0" itself. */
  predicate IsCanonicalDecimal(s: string) {
    IsDigitRun(s) && (s[0] == '0' ==> |s| == 1)
  }

  function DigitValue(c: char): nat
    requires IsAsciiDigit(c)
  {
    c as int - '0' as int
  }

  function DigitChar(d: nat): char
    requires d < 10
  {
    ('0' as int + d) as char
  }

  /** The value of a run of digits, most significant digit first. */
  function DigitsValue(s: string): nat
    requires AllDigits(s)
  {
    if |s| == 0 then 0 else 10 * DigitsValue(s[..|s| - 1]) + DigitValue(s[|s| - 1])
  }

  /** `n.to_string()`: canonical decimal text that denotes `n`. */
  function ToDecimal(n: nat): (s: string)
    ensures IsCanonicalDecimal(s) && DigitsValue(s) == n
  {
    if n < 10 then [DigitChar(n)]
    else
      var init := ToDecimal(n / 10);
      var s := init + [DigitChar(n % 10)];
      assert s[..|s| - 1] == init;
      assert |init| == 1 ==> DigitsValue(init) == DigitValue(init[0]);
      s
  }

  /**
   * `s.parse::<uN>()` where `max` is `uN::MAX`: a leading `+` is skipped,
   * what remains must be one or more ASCII digits, and the value must fit.
   */
  function ParseUnsigned(s: string, max: nat): (r: Option<nat>)
    ensures r.Some? ==> r.value <= max
  {
    var digits := if |s| > 0 && s[0] == '+' then s[1..] else s;
    if IsDigitRun(digits) && DigitsValue(digits) <= max then Some(DigitsValue(digits)) else None
  }

  /** `k` zero digits. */
  function Zeros(k: nat): string {
    seq(k, _ => '0')
  }

  /** The canonical decimal of `n`, padded with `zeros` leading zeros and prefixed with `+` if `plus`. */
  function PaddedForm(plus: bool, zeros: nat, n: nat): string {
    (if plus then "+" else "") + Zeros(zeros) + ToDecimal(n)
  }

  /** Leading zero digits do not change the value. */
  lemma {:induction false} LeadingZerosValue(k: nat, t: string)
    requires AllDigits(t)
    ensures AllDigits(Zeros(k) + t) && DigitsValue(Zeros(k) + t) == DigitsValue(t)
  {
    var s := Zeros(k) + t;
    assert AllDigits(s) by {
      forall i | 0 <= i < |s| ensures IsAsciiDigit(s[i]) {
        if i >= k { assert s[i] == t[i - k]; }
      }
    }
    if |t| == 0 {
      if k > 0 {
        assert s[..|s| - 1] == Zeros(k - 1) + t;
        LeadingZerosValue(k - 1, t);
      }
    } else {
      assert s[..|s| - 1] == Zeros(k) + t[..|t| - 1];
      LeadingZerosValue(k, t[..|t| - 1]);
    }
  }

  /** A digit run that does not start with zero denotes a positive number. */
  lemma {:induction false} NonZeroLeadValue(s: string)
    requires IsDigitRun(s) && s[0] != '0'
    ensures DigitsValue(s) >= 1
  {
    if |s| > 1 {
      NonZeroLeadValue(s[..|s| - 1]);
    }
  }

  /** Canonical text is exactly what `to_string` gives for the value it denotes. */
  lemma {:induction false} CanonicalRoundTrip(s: string)
    requires IsCanonicalDecimal(s)
    ensures ToDecimal(DigitsValue(s)) == s
  {
    if |s| > 1 {
      var init := s[..|s| - 1];
      var d := DigitValue(s[|s| - 1]);
      NonZeroLeadValue(init);
      CanonicalRoundTrip(init);
      var n := DigitsValue(s);
      assert n == 10 * DigitsValue(init) + d;
      assert n / 10 == DigitsValue(init) && n % 10 == d;
      assert DigitChar(d) == s[|s| - 1];
      assert init + [s[|s| - 1]] == s;
    }
  }

  /** Parsing the padded form of a value in range gives back the value. */
  lemma ParseAcceptsPadded(plus: bool, zeros: nat, n: nat, max: nat)
    requires n <= max
    ensures ParseUnsigned(PaddedForm(plus, zeros, n), max) == Some(n)
  {
    var s := PaddedForm(plus, zeros, n);
    var digits := Zeros(zeros) + ToDecimal(n);
    LeadingZerosValue(zeros, ToDecimal(n));
    if plus {
      assert s == "+" + digits && s[0] == '+' && s[1..] == digits;
    } else {
      assert s == digits;
      assert |s| > 0 ==> s[0] != '+';
    }
  }

  /** The number of leading zeros that can be dropped from a digit run, keeping at least one digit. */
  function LeadingZeroCount(d: string): nat {
    if |d| > 1 && d[0] == '0' then 1 + LeadingZeroCount(d[1..]) else 0
  }

  /** Every digit run is some zeros followed by canonical text. */
  lemma {:induction false} SplitLeadingZeros(d: string)
    requires IsDigitRun(d)
    ensures LeadingZeroCount(d) < |d|
    ensures d == Zeros(LeadingZeroCount(d)) + d[LeadingZeroCount(d)..]
    ensures IsCanonicalDecimal(d[LeadingZeroCount(d)..])
  {
    if |d| > 1 && d[0] == '0' {
      SplitLeadingZeros(d[1..]);
      var k := LeadingZeroCount(d[1..]);
      assert d[1..][k..] == d[k + 1..];
      assert Zeros(k + 1) == ['0'] + Zeros(k);
      assert d == [d[0]] + d[1..];
    }
  }

  /** Text the parser accepts is the padded form of the value it parses to. */
  lemma ParsedIsPadded(s: string, max: nat)
    requires ParseUnsigned(s, max).Some?
    ensures exists plus: bool, zeros: nat :: s == PaddedForm(plus, zeros, ParseUnsigned(s, max).value)
  {
    var n := ParseUnsigned(s, max).value;
    var plus := |s| > 0 && s[0] == '+';
    var digits := if plus then s[1..] else s;
    assert IsDigitRun(digits) && n == DigitsValue(digits);
    var k := DigitsArePadded(digits);
    PaddedFormUnfold(k, n);
    if plus {
      assert s == "+" + digits;
      assert s == PaddedForm(true, k, n);
    } else {
      assert s == PaddedForm(false, k, n);
    }
  }

  lemma PaddedFormUnfold(zeros: nat, n: nat)
    ensures PaddedForm(false, zeros, n) == Zeros(zeros) + ToDecimal(n)
    ensures PaddedForm(true, zeros, n) == "+" + (Zeros(zeros) + ToDecimal(n))
  {
  }

  /** A digit run is the canonical text of its value after some leading zeros. */
  lemma DigitsArePadded(digits: string) returns (k: nat)
    requires IsDigitRun(digits)
    ensures digits == Zeros(k) + ToDecimal(DigitsValue(digits))
  {
    SplitLeadingZeros(digits);
    k := LeadingZeroCount(digits);
    var rest := digits[k..];
    CanonicalRoundTrip(rest);
    LeadingZerosValue(k, rest);
  }

  /**
   * Rendering a parsed value gives back the text exactly when that text was
   * canonical: a leading `+` or leading zeros are accepted but not restored.
   */
  lemma RenderParsedIffCanonical(s: string, max: nat)
    requires ParseUnsigned(s, max).Some?
    ensures ToDecimal(ParseUnsigned(s, max).value) == s <==> IsCanonicalDecimal(s)
  {
    if IsCanonicalDecimal(s) {
      assert s[0] != '+';
      CanonicalRoundTrip(s);
    }
  }

  /** "007" and "+7" both parse to 7, which renders as "7". */
  lemma PaddedTextIsNotRestored()
    ensures ParseUnsigned("007", U32Max) == Some(7) && ToDecimal(7) == "7"
    ensures ParseUnsigned("+7", U32Max) == Some(7)
  {
    assert "007" == PaddedForm(false, 2, 7);
    assert "+7" == PaddedForm(true, 0, 7);
    ParseAcceptsPadded(false, 2, 7, U32Max);
    ParseAcceptsPadded(true, 0, 7, U32Max);
  }
}
