/** Decimal numerals: the text of a number, with or without leading zeros, and the number of a text. */
module Numerals {
  import opened Sequences

  predicate IsDigit(c: char) {
    '0' <= c <= '9'
  }

  predicate IsDigits(s: string) {
    s != "" && forall i :: 0 <= i < |s| ==> IsDigit(s[i])
  }

  function DigitOf(n: nat): (c: char)
    requires n < 10
    ensures IsDigit(c) && c as nat - '0' as nat == n
  {
    ('0' as nat + n) as char
  }

  /** `str(n)`. */
  function DecimalText(n: nat): (s: string)
    ensures IsDigits(s)
  {
    if n < 10 then [DigitOf(n)] else DecimalText(n / 10) + [DigitOf(n % 10)]
  }

  /** `int(s)` for a text of digits. */
  function DecimalValue(s: string): int {
    if s == "" then 0 else DecimalValue(s[..|s| - 1]) * 10 + (s[|s| - 1] as int - '0' as int)
  }

  function Zeros(k: nat): (s: string)
    ensures |s| == k && forall i :: 0 <= i < k ==> s[i] == '0'
  {
    seq(k, i => '0')
  }

  function Power10(k: nat): nat {
    if k == 0 then 1 else 10 * Power10(k - 1)
  }

  lemma ValueAppend(s: string, c: char)
    ensures DecimalValue(s + [c]) == DecimalValue(s) * 10 + (c as int - '0' as int)
  {
    assert (s + [c])[..|s|] == s;
  }

  lemma Shift(p: nat, a: int, b: int, d: int)
    ensures (a * p + b) * 10 + d == a * (10 * p) + (b * 10 + d)
  {
  }

  /** A digit counts ten times as much for every digit behind it: the value of a text in two parts. */
  lemma {:induction false} ValueOfParts(s: string, t: string)
    ensures DecimalValue(s + t) == DecimalValue(s) * Power10(|t|) + DecimalValue(t)
  {
    if t == "" {
      Neutral(s);
    } else {
      var n := |t| - 1;
      ValueOfParts(s, t[..n]);
      assert s + t == s + t[..n] + [t[n]];
      ValueAppend(s + t[..n], t[n]);
      Shift(Power10(n), DecimalValue(s), DecimalValue(t[..n]), t[n] as int - '0' as int);
    }
  }

  lemma {:induction false} ValueOfText(n: nat)
    ensures DecimalValue(DecimalText(n)) == n
  {
    if n < 10 {
      var s := DecimalText(n);
      assert |s| == 1 && s[..0] == "" && DecimalValue("") == 0;
    } else {
      ValueOfText(n / 10);
      ValueAppend(DecimalText(n / 10), DigitOf(n % 10));
    }
  }

  lemma {:induction false} ValueOfZeros(k: nat)
    ensures DecimalValue(Zeros(k)) == 0
  {
    if k > 0 {
      assert Zeros(k) == Zeros(k - 1) + ['0'];
      ValueOfZeros(k - 1);
      ValueAppend(Zeros(k - 1), '0');
    }
  }

  /** The number of a text is the one it is the text of, whatever zeros stand in front. */
  lemma ReadsBack(k: nat, n: nat)
    ensures IsDigits(Zeros(k) + DecimalText(n)) && DecimalValue(Zeros(k) + DecimalText(n)) == n
  {
    ValueOfParts(Zeros(k), DecimalText(n));
    ValueOfZeros(k);
    ValueOfText(n);
  }

  lemma {:induction false} ValueOfDigits(s: string)
    requires forall i :: 0 <= i < |s| ==> IsDigit(s[i])
    ensures DecimalValue(s) >= 0
  {
    if s != "" {
      ValueOfDigits(s[..|s| - 1]);
    }
  }

  /** Every text of digits is zeros in front of the text of its number. */
  lemma {:induction false} DigitsAreText(s: string) returns (k: nat)
    requires IsDigits(s)
    ensures DecimalValue(s) >= 0 && s == Zeros(k) + DecimalText(DecimalValue(s))
  {
    var n := |s| - 1;
    var last := s[n] as int - '0' as int;
    ValueOfDigits(s[..n]);
    assert s == s[..n] + [s[n]];
    assert DigitOf(last) == s[n];
    if s[..n] == "" {
      k := 0;
      assert Zeros(0) == "" && s == [s[n]];
      Neutral(s);
    } else {
      k := DigitsAreText(s[..n]);
      var v := DecimalValue(s[..n]);
      if v == 0 {
        assert s[..n] == Zeros(k) + "0";
        assert Zeros(k) + "0" == Zeros(k + 1);
        k := k + 1;
      } else {
        assert (v * 10 + last) / 10 == v && (v * 10 + last) % 10 == last;
        Associate(Zeros(k), DecimalText(v), [s[n]]);
      }
    }
  }

  /** The text of a number but zero does not start with a zero, so that no two numbers share one. */
  lemma {:induction false} NoLeadingZero(n: nat)
    requires n > 0
    ensures DecimalText(n)[0] != '0'
  {
    if n >= 10 {
      NoLeadingZero(n / 10);
    }
  }

  lemma TextInjective(m: nat, n: nat)
    requires DecimalText(m) == DecimalText(n)
    ensures m == n
  {
    ValueOfText(m);
    ValueOfText(n);
  }

  lemma {:induction false} TextLength(n: nat)
    ensures 1 <= |DecimalText(n)| <= n + 1
  {
    if n >= 10 {
      TextLength(n / 10);
    }
  }
}
