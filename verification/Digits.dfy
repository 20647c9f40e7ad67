/** Decimal digit strings and their values. */
module Digits {
  predicate IsDigit(c: char) { '0' <= c <= '9' }

  predicate AllDigits(s: string) { forall i | 0 <= i < |s| :: IsDigit(s[i]) }

  function DigitValue(c: char): nat
    requires IsDigit(c)
  {
    c as int - '0' as int
  }

  function Digit(d: nat): (c: char)
    requires d < 10
    ensures IsDigit(c) && DigitValue(c) == d
  {
    '0' + d as char
  }

  /** A lower-case hexadecimal digit. */
  function HexChar(n: nat): char
    requires n < 16
  {
    if n < 10 then '0' + n as char else 'a' + (n - 10) as char
  }

  /** The number a digit string spells; the empty string spells 0. */
  function Value(s: string): nat
    requires AllDigits(s)
  {
    if s == "" then 0 else 10 * Value(s[..|s| - 1]) + DigitValue(s[|s| - 1])
  }

  function Pow10(n: nat): (p: nat)
    ensures p > 0
  {
    if n == 0 then 1 else 10 * Pow10(n - 1)
  }

  function Zeros(n: nat): (s: string)
    ensures |s| == n && AllDigits(s) && forall i | 0 <= i < n :: s[i] == '0'
  {
    if n == 0 then "" else "0" + Zeros(n - 1)
  }

  lemma {:induction false} PowSum(a: nat, b: nat)
    ensures Pow10(a + b) == Pow10(a) * Pow10(b)
  {
    if b > 0 {
      PowSum(a, b - 1);
      assert Pow10(a) * (10 * Pow10(b - 1)) == 10 * (Pow10(a) * Pow10(b - 1));
    }
  }

  /** Appending shifts. */
  lemma {:induction false} ValueConcat(a: string, b: string)
    requires AllDigits(a) && AllDigits(b)
    ensures AllDigits(a + b) && Value(a + b) == Value(a) * Pow10(|b|) + Value(b)
  {
    if b == "" {
      assert a + b == a;
    } else {
      var init := b[..|b| - 1];
      ValueConcat(a, init);
      assert (a + b)[..|a + b| - 1] == a + init;
      assert Value(a) * Pow10(|b|) == 10 * (Value(a) * Pow10(|init|)) by {
        assert Pow10(|b|) == 10 * Pow10(|init|);
      }
    }
  }

  lemma {:induction false} ValueOfZeros(s: string)
    requires AllDigits(s)
    ensures Value(s) == 0 <==> forall i | 0 <= i < |s| :: s[i] == '0'
  {
    if s != "" {
      var init := s[..|s| - 1];
      ValueOfZeros(init);
      assert s == init + [s[|s| - 1]];
      assert DigitValue(s[|s| - 1]) == 0 <==> s[|s| - 1] == '0';
      if Value(init) == 0 && s[|s| - 1] == '0' {
        forall i | 0 <= i < |s| ensures s[i] == '0' {
          assert i < |init| ==> s[i] == init[i];
        }
      }
      if forall i | 0 <= i < |s| :: s[i] == '0' {
        assert forall i | 0 <= i < |init| :: init[i] == s[i];
      }
    }
  }

  lemma {:induction false} ValueBound(s: string)
    requires AllDigits(s)
    ensures Value(s) < Pow10(|s|)
    ensures s != "" && s[0] != '0' ==> Pow10(|s| - 1) <= Value(s)
  {
    if s != "" {
      ValueBound(s[..|s| - 1]);
    }
  }

  /** Digit strings of one length are told apart by their values. */
  lemma {:induction false} ValueInjective(a: string, b: string)
    requires AllDigits(a) && AllDigits(b) && |a| == |b| && Value(a) == Value(b)
    ensures a == b
  {
    if a != "" {
      var n := |a| - 1;
      ValueInjective(a[..n], b[..n]);
      assert DigitValue(a[n]) == DigitValue(b[n]);
      assert a == a[..n] + [a[n]] && b == b[..n] + [b[n]];
    }
  }

  lemma {:induction false} PowIncreases(a: nat, b: nat)
    requires a < b
    ensures 10 * Pow10(a) <= Pow10(b)
  {
    if a + 1 < b {
      PowIncreases(a, b - 1);
    }
  }

  /** The digits of `n`, most significant first, without leading zeros (and none for 0). */
  function Spell(n: nat): (s: string)
    ensures AllDigits(s) && Value(s) == n && (s != "" ==> s[0] != '0')
  {
    if n == 0 then "" else
      var init := Spell(n / 10);
      assert (init + [Digit(n % 10)])[..|init|] == init;
      init + [Digit(n % 10)]
  }

  /** Zero-padded to at least `width`. */
  function Padded(n: nat, width: nat): (s: string)
    ensures AllDigits(s) && Value(s) == n && |s| >= width
    ensures n < Pow10(width) ==> |s| == width
  {
    var s := Spell(n);
    ValueBound(s);
    if |s| >= width then
      assert n < Pow10(width) ==> |s| == width by {
        if |s| > width { PowIncreases(width, |s|); assert Pow10(|s|) == 10 * Pow10(|s| - 1); }
      }
      s
    else
      ValueConcat(Zeros(width - |s|), s);
      ValueOfZeros(Zeros(width - |s|));
      Zeros(width - |s|) + s
  }

  /** Formatting an integer zero-padded to `width` characters, a minus sign counted among them. */
  function PaddedInt(n: int, width: nat): string
    requires width > 0
  {
    if n >= 0 then Padded(n, width) else "-" + Padded(-n, width - 1)
  }

  lemma PaddedIntSign(n: int, width: nat)
    requires width > 0
    ensures PaddedInt(n, width) != "" && (PaddedInt(n, width)[0] == '-' <==> n < 0)
  {
  }

  lemma PaddedIntInjective(a: int, b: int, width: nat)
    requires width > 0 && PaddedInt(a, width) == PaddedInt(b, width)
    ensures a == b
  {
    PaddedIntSign(a, width);
    PaddedIntSign(b, width);
    if a < 0 {
      assert Padded(-a, width - 1) == PaddedInt(a, width)[1..];
      assert Padded(-b, width - 1) == PaddedInt(b, width)[1..];
    }
  }
}
