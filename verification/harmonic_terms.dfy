/** The multiplier in the name of a harmonic pointing term, as `TermHarmonics::getFunc` of
lib/rts2tel/tpointmodelterm.cpp reads it: the weight it multiplies with is meant to be ten and grows
by ten at each digit instead. */
module HarmonicTerms {
  predicate IsDigit(c: char) {
    '0' <= c <= '9'
  }

  function Digit(c: char): nat
    requires IsDigit(c)
  {
    c as int - '0' as int
  }

  ghost predicate AllDigits(s: string) {
    forall i :: 0 <= i < |s| ==> IsDigit(s[i])
  }

  function Power(n: nat): nat {
    if n == 0 then 1 else 10 * Power(n - 1)
  }

  /** What the loop computes. */
  ghost function Parsed(s: string): nat
    requires AllDigits(s)
  {
    if s == "" then 0
    else Parsed(s[..|s| - 1]) * Power(|s| - 1) + Digit(s[|s| - 1])
  }

  /** What the digits say. */
  ghost function Decimal(s: string): nat
    requires AllDigits(s)
  {
    if s == "" then 0
    else Decimal(s[..|s| - 1]) * 10 + Digit(s[|s| - 1])
  }

  ghost predicate AllZero(s: string) {
    forall i :: 0 <= i < |s| ==> s[i] == '0'
  }

  lemma {:induction false} ZeroDecimal(s: string)
    requires AllDigits(s)
    ensures Decimal(s) == 0 <==> AllZero(s)
  {
    if s != "" {
      ZeroDecimal(s[..|s| - 1]);
      assert s == s[..|s| - 1] + [s[|s| - 1]];
    }
  }

  lemma {:induction false} PowerIsPositive(n: nat)
    ensures Power(n) >= 1
  {
    if n > 0 {
      PowerIsPositive(n - 1);
    }
  }

  lemma Larger(x: nat, y: nat, k: nat)
    requires x >= y && k >= 10
    ensures x * k >= y * 10
    ensures k > 10 && x * k == y * 10 ==> y == 0
  {
    assert x * k >= y * k;
    assert y * k == y * 10 + y * (k - 10);
  }

  lemma LargePower(n: nat)
    requires n >= 2
    ensures Power(n) >= 100
  {
    PowerIsPositive(n - 2);
    assert Power(n) == 10 * Power(n - 1) && Power(n - 1) == 10 * Power(n - 2);
  }

  lemma {:induction false} ParsedIsAtLeastDecimal(s: string)
    requires AllDigits(s)
    ensures Parsed(s) >= Decimal(s)
    ensures |s| <= 2 ==> Parsed(s) == Decimal(s)
    ensures |s| > 2 && Parsed(s) == Decimal(s) ==> Decimal(s[..|s| - 1]) == 0
  {
    if |s| > 0 {
      var init := s[..|s| - 1];
      ParsedIsAtLeastDecimal(init);
      if |s| == 1 {
        assert Parsed(init) == 0;
      } else if |s| == 2 {
        assert Power(1) == 10;
      } else {
        LargePower(|s| - 1);
        Larger(Parsed(init), Decimal(init), Power(|s| - 1));
      }
    }
  }

  lemma {:induction false} ParsedZeros(s: string)
    requires AllDigits(s) && AllZero(s)
    ensures Parsed(s) == 0
  {
    if s != "" {
      ParsedZeros(s[..|s| - 1]);
    }
  }

  /** The number read is the number written exactly when it has at most two digits or nothing but zeros
  before the last one. */
  lemma ParsedIsDecimalIff(s: string)
    requires AllDigits(s)
    ensures Parsed(s) == Decimal(s) <==> |s| <= 2 || AllZero(s[..|s| - 1])
  {
    ParsedIsAtLeastDecimal(s);
    if |s| > 2 {
      ZeroDecimal(s[..|s| - 1]);
      if AllZero(s[..|s| - 1]) {
        ParsedZeros(s[..|s| - 1]);
      }
    }
  }

  lemma OneHundred()
    ensures Decimal("100") == 100 && Parsed("100") == 1000
  {
    assert "100"[..2] == "10" && "10"[..1] == "1" && "1"[..0] == "";
    assert Decimal("1") == 1 && Parsed("1") == 1;
    assert Power(1) == 10 && Power(2) == 100;
    assert Decimal("10") == 10 && Parsed("10") == 10;
  }

  /** Reads the digits of `name` from `from` on; no digits and zero both mean one. */
  /** Each digit from the third on multiplies what was read by ten times more than the one before. */
  lemma FourDigits(a: char, b: char, c: char, d: char)
    requires AllDigits([a, b, c, d])
    ensures var x, y, z, w := a as int - '0' as int, b as int - '0' as int, c as int - '0' as int, d as int - '0' as int;
            && AllDigits([a]) && AllDigits([a, b]) && AllDigits([a, b, c])
            && Parsed([a, b]) == 10 * x + y && Parsed([a, b, c]) == 1000 * x + 100 * y + z
            && Parsed([a, b, c, d]) == 1_000_000 * x + 100_000 * y + 1000 * z + w
  {
    assert [a, b, c, d][3] == d && [a, b, c, d][2] == c && [a, b, c, d][1] == b && [a, b, c, d][0] == a;
    assert [a, b, c, d][..3] == [a, b, c] && [a, b, c][..2] == [a, b] && [a, b][..1] == [a] && [a][..0] == [];
    assert Power(0) == 1 && Power(1) == 10 && Power(2) == 100 && Power(3) == 1000;
    assert Parsed([]) == 0 && Parsed([a]) == Digit(a) && Parsed([a, b]) == 10 * Digit(a) + Digit(b);
    assert Parsed([a, b, c]) == (10 * Digit(a) + Digit(b)) * 100 + Digit(c);
  }

  lemma NoDigits()
    ensures Parsed("") == 0 && Power(0) == 1
  {
  }

  lemma OneDigitMore(name: string, from: nat, end: nat)
    requires from <= end < |name| && AllDigits(name[from..end]) && IsDigit(name[end])
    ensures AllDigits(name[from..end + 1]) && Power(end - from + 1) == 10 * Power(end - from)
    ensures Parsed(name[from..end + 1]) == Parsed(name[from..end]) * Power(end - from) + Digit(name[end])
  {
    assert name[from..end + 1][..end - from] == name[from..end];
  }

  method ReadMultiplier(name: string, from: nat) returns (mul: nat, end: nat)
    requires from <= |name|
    ensures from <= end <= |name| && AllDigits(name[from..end]) && (end < |name| ==> !IsDigit(name[end]))
    ensures (forall k :: from <= k < end ==> '0' <= name[k] <= '9') && (end < |name| ==> !('0' <= name[end] <= '9'))
    ensures mul == if Parsed(name[from..end]) == 0 then 1 else Parsed(name[from..end])
  {
    hide Parsed, Power, Digit;
    NoDigits();
    assert name[from..from] == "";
    end := from;
    mul := 0;
    var times := 1;
    while end < |name| && IsDigit(name[end])
      invariant from <= end <= |name| && AllDigits(name[from..end])
      invariant mul == Parsed(name[from..end]) && times == Power(end - from)
    {
      OneDigitMore(name, from, end);
      mul := mul * times + Digit(name[end]);
      times := times * 10;
      end := end + 1;
    }
    if mul == 0 {
      mul := 1;
    }
  }
}
