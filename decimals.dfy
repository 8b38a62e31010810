/** Python's `float()` on the strings the nutrient pattern and the food log
    hand it, with the value kept exact: a decimal numeral is a number of
    units and a count of fraction digits, never an IEEE float. */
module Decimals {
  import opened Wrappers
  import opened Text

  /** The value of a decimal digit. */
  function DigitValue(c: char): (v: nat)
    requires IsDigit(c)
    ensures v < 10
  {
    c as int - '0' as int
  }

  /** The character of a digit value; the inverse of `DigitValue`. */
  function DigitChar(v: nat): (c: char)
    requires v < 10
    ensures IsDigit(c) && DigitValue(c) == v
  {
    ('0' as int + v) as char
  }

  predicate AllDigits(s: string) {
    forall i :: 0 <= i < |s| ==> IsDigit(s[i])
  }

  /** The number a string of decimal digits spells; `""` spells 0. */
  function DigitsValue(s: string): nat
    requires AllDigits(s)
  {
    if s == [] then 0 else DigitsValue(s[..|s| - 1]) * 10 + DigitValue(s[|s| - 1])
  }

  function Pow10(n: nat): (p: nat)
    ensures p >= 1
  {
    if n == 0 then 1 else 10 * Pow10(n - 1)
  }

  lemma AllDigitsConcat(a: string, b: string)
    requires AllDigits(a) && AllDigits(b)
    ensures AllDigits(a + b)
  {
    forall i | 0 <= i < |a + b| ensures IsDigit((a + b)[i]) {
      if i >= |a| { assert (a + b)[i] == b[i - |a|]; }
    }
  }

  /** Appending digits shifts the value left by their count. */
  lemma {:induction false} DigitsValueAppend(a: string, b: string)
    requires AllDigits(a) && AllDigits(b)
    ensures AllDigits(a + b)
    ensures DigitsValue(a + b) == DigitsValue(a) * Pow10(|b|) + DigitsValue(b)
    decreases |b|
  {
    AllDigitsConcat(a, b);
    if b != [] {
      var b', last := b[..|b| - 1], b[|b| - 1];
      assert AllDigits(b') by {
        forall i | 0 <= i < |b'| ensures IsDigit(b'[i]) { assert b'[i] == b[i]; }
      }
      assert (a + b)[..|a + b| - 1] == a + b';
      assert (a + b)[|a + b| - 1] == last;
      DigitsValueAppend(a, b');
      var x, y, p := DigitsValue(a), DigitsValue(b'), Pow10(|b'|);
      calc {
        DigitsValue(a + b);
        DigitsValue(a + b') * 10 + DigitValue(last);
        (x * p + y) * 10 + DigitValue(last);
        { ShiftDigit(x, p, y, DigitValue(last)); }
        x * (p * 10) + (y * 10 + DigitValue(last));
      }
    } else {
      assert a + b == a;
    }
  }

  lemma ShiftDigit(x: int, p: int, y: int, d: int)
    ensures (x * p + y) * 10 + d == x * (p * 10) + (y * 10 + d)
  {
  }

  /** The shortest decimal numeral of `n`: no leading zero, `"0"` for 0. */
  function NatToDigits(n: nat): (s: string)
    ensures |s| > 0 && AllDigits(s)
    ensures DigitsValue(s) == n
    ensures |s| > 1 ==> s[0] != '0'
  {
    if n < 10 then [DigitChar(n)]
    else
      var p := NatToDigits(n / 10);
      var s := p + [DigitChar(n % 10)];
      assert s[..|s| - 1] == p;
      s
  }

  /** An exact decimal number: `units / 10^scale`. */
  datatype Decimal = Decimal(units: nat, scale: nat)

  function ToReal(d: Decimal): real {
    d.units as real / Pow10(d.scale) as real
  }

  predicate IsNumeralText(s: string) {
    forall i :: 0 <= i < |s| ==> IsNumeralChar(s[i])
  }

  function CountDots(s: string): nat {
    if s == [] then 0 else CountDots(s[..|s| - 1]) + if s[|s| - 1] == '.' then 1 else 0
  }

  /** Where the first `.` is, or `|s|` when there is none. */
  function DotIndex(s: string): (k: nat)
    ensures k <= |s|
    ensures forall i :: 0 <= i < k ==> s[i] != '.'
    ensures k < |s| ==> s[k] == '.'
  {
    if s == [] || s[0] == '.' then 0 else 1 + DotIndex(s[1..])
  }

  /** The digits before and after the `.` of a numeral that has one dot at
      most. */
  function IntPart(s: string): string {
    s[..DotIndex(s)]
  }

  function FracPart(s: string): string {
    var k := DotIndex(s);
    if k < |s| then s[k + 1..] else []
  }

  /** Python `float(tok)` for a token of digits and dots: it succeeds exactly
      when the token holds at least one digit and at most one `.` (`"7"`,
      `"7."`, `".5"`, `"2.5"`; not `"."` nor `"1.2.3"`), and then the value is
      the integer part plus the fraction digits over their power of ten. */
  function ParseDecimal(tok: string): (r: Option<Decimal>)
    requires IsNumeralText(tok)
    ensures r.Some? <==> CountDots(tok) <= 1 && CountDots(tok) < |tok|
    ensures r.Some? ==>
      AllDigits(IntPart(tok)) && AllDigits(FracPart(tok))
      && r.value.scale == |FracPart(tok)|
      && r.value.units == DigitsValue(IntPart(tok)) * Pow10(|FracPart(tok)|) + DigitsValue(FracPart(tok))
  {
    SplitAtDot(tok);
    if CountDots(tok) <= 1 && CountDots(tok) < |tok| then
      var whole, frac := IntPart(tok), FracPart(tok);
      DigitsValueAppend(whole, frac);
      Some(Decimal(DigitsValue(whole + frac), |frac|))
    else None
  }

  /** How a numeral splits at its first dot. */
  lemma {:induction false} SplitAtDot(s: string)
    requires IsNumeralText(s)
    ensures AllDigits(IntPart(s))
    ensures CountDots(s) == 0 <==> DotIndex(s) == |s|
    ensures CountDots(s) <= 1 ==> AllDigits(FracPart(s))
    ensures DotIndex(s) < |s| ==> CountDots(s) == 1 + CountDots(FracPart(s))
  {
    var k := DotIndex(s);
    DotCount(s);
    assert forall i :: 0 <= i < k ==> IntPart(s)[i] == s[i];
    if k < |s| {
      var f := s[k + 1..];
      assert f == FracPart(s);
      assert IsNumeralText(f) by {
        forall i | 0 <= i < |f| ensures IsNumeralChar(f[i]) {
          assert f[i] == s[k + 1 + i];
        }
      }
      DotCount(f);
    }
  }

  /** The dots of a numeral: none before the first, one at it. */
  lemma {:induction false} DotCount(s: string)
    requires IsNumeralText(s)
    ensures DotIndex(s) == |s| ==> CountDots(s) == 0
    ensures DotIndex(s) < |s| ==> CountDots(s) == 1 + CountDots(s[DotIndex(s) + 1..])
    ensures CountDots(s) == 0 ==> AllDigits(s)
  {
    if s != [] {
      CountDotsCons(s);
      var t := s[1..];
      assert forall i :: 0 <= i < |t| ==> t[i] == s[i + 1];
      if s[0] != '.' {
        DotCount(t);
        if DotIndex(s) < |s| {
          assert t[DotIndex(t) + 1..] == s[DotIndex(s) + 1..];
        }
        if CountDots(s) == 0 {
          forall i | 0 <= i < |s| ensures IsDigit(s[i]) {
            if i > 0 { assert s[i] == t[i - 1]; }
          }
        }
      }
    }
  }

  /** `CountDots` from the front. */
  lemma {:induction false} CountDotsCons(s: string)
    requires s != []
    ensures CountDots(s) == (if s[0] == '.' then 1 else 0) + CountDots(s[1..])
    decreases |s|
  {
    if |s| > 1 {
      var init := s[..|s| - 1];
      CountDotsCons(init);
      assert init[1..] == s[1..][..|s[1..]| - 1];
    } else {
      assert s[1..] == [];
    }
  }

  /** The value `float` gives: the integer part plus the fraction digits over
      their power of ten. */
  lemma ParseDecimalValue(tok: string)
    requires IsNumeralText(tok) && ParseDecimal(tok).Some?
    ensures AllDigits(IntPart(tok)) && AllDigits(FracPart(tok))
    ensures ToReal(ParseDecimal(tok).value)
      == DigitsValue(IntPart(tok)) as real + DigitsValue(FracPart(tok)) as real / Pow10(|FracPart(tok)|) as real
  {
    var d := ParseDecimal(tok).value;
    ShiftedValue(DigitsValue(IntPart(tok)), DigitsValue(FracPart(tok)), Pow10(d.scale));
  }

  lemma ShiftedValue(a: nat, b: nat, p: nat)
    requires p >= 1
    ensures (a * p + b) as real / p as real == a as real + b as real / p as real
  {
    var pr := p as real;
    assert (a * p + b) as real == a as real * pr + b as real;
    assert (a as real * pr + b as real) / pr == a as real * pr / pr + b as real / pr;
  }

  /** Reading back the numeral of a natural number gives that number. */
  lemma ParseNatToDigits(n: nat)
    ensures IsNumeralText(NatToDigits(n))
    ensures ParseDecimal(NatToDigits(n)) == Some(Decimal(n, 0))
  {
    var s := NatToDigits(n);
    assert DotIndex(s) == |s|;
    SplitAtDot(s);
    assert IntPart(s) == s;
  }

  /** `float("42")` is 42 and `float("1.2.3")` fails. */
  lemma ParseDecimalExamples()
    ensures ParseDecimal("42") == Some(Decimal(42, 0))
    ensures ParseDecimal("1.2.3") == None
    ensures ParseDecimal("4") == Some(Decimal(4, 0))
  {
    assert "4"[1..] == [] && "4"[..0] == [];
    assert DotIndex("4") == 1 && IntPart("4") == "4" && FracPart("4") == [];
    assert "42"[1..] == "2" && "2"[1..] == [];
    assert DotIndex("42") == 2;
    assert IntPart("42") == "42" && FracPart("42") == [];
    assert "42"[..1] == "4" && "4"[..0] == [];
    assert DigitsValue("42") == 42;
    assert CountDots("42") == 0;
    var s := "1.2.3";
    assert s[..1][..0] == [] && s[..2][..1] == s[..1] && s[..3][..2] == s[..2];
    assert s[..4][..3] == s[..3] && s[..5] == s;
    assert CountDots(s[..1]) == 0;
    assert CountDots(s[..2]) == 1;
    assert CountDots(s[..3]) == 1;
    assert CountDots(s[..4]) == 2;
    assert CountDots(s) == 2;
  }
}
