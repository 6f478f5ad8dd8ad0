/** Positional numerals, as printed by `Number.prototype.toString(base)` and read
    back by `Number.parseInt`. */
module Numerals {

  /** Octal and decimal. The three operations below keep the arithmetic of each base linear. */
  type Base = b: nat | b == 8 || b == 10 witness 10

  function TimesBase(n: nat, base: Base): nat { if base == 8 then 8 * n else 10 * n }

  function OverBase(n: nat, base: Base): (q: nat)
    ensures q <= n && (n >= base ==> q < n)
  {
    if base == 8 then n / 8 else n / 10
  }

  function ModBase(n: nat, base: Base): (r: nat)
    ensures r < base && n == TimesBase(OverBase(n, base), base) + r
  {
    if base == 8 then n % 8 else n % 10
  }

  predicate IsDigit(c: char, base: Base)
  {
    '0' as int <= c as int < '0' as int + base
  }

  predicate IsNumeral(s: string, base: Base)
  {
    forall i :: 0 <= i < |s| ==> IsDigit(s[i], base)
  }

  function DigitChar(d: nat): (c: char)
    requires d < 10
    ensures c as int == '0' as int + d
  {
    ('0' as int + d) as char
  }

  function Digits(n: nat, base: Base): (s: string)
    ensures s != [] && IsNumeral(s, base)
    decreases n
  {
    if n < base then [DigitChar(n)] else Digits(OverBase(n, base), base) + [DigitChar(ModBase(n, base))]
  }

  function DigitValue(c: char): (d: nat)
    requires IsDigit(c, 10)
    ensures d < 10 && DigitChar(d) == c
  {
    c as int - '0' as int
  }

  function Value(s: string, base: Base): nat
    requires IsNumeral(s, base)
  {
    if s == [] then 0 else
      var last := s[|s| - 1];
      assert IsDigit(last, base);
      TimesBase(Value(s[..|s| - 1], base), base) + DigitValue(last)
  }

  /** The value of one more digit: the most significant one comes first. */
  lemma ValueOfMore(s: string, c: char, base: Base)
    requires IsNumeral(s, base) && IsDigit(c, base)
    ensures IsNumeral(s + [c], base) && Value("", base) == 0
    ensures Value(s + [c], base) == (if base == 8 then 8 * Value(s, base) else 10 * Value(s, base)) + (c as int - 0x30)
  {
    assert (s + [c])[..|s|] == s;
  }

  lemma {:induction false} ValueOfDigits(n: nat, base: Base)
    ensures Value(Digits(n, base), base) == n
    decreases n
  {
    var s := Digits(n, base);
    if n >= base {
      ValueOfDigits(OverBase(n, base), base);
      assert s[..|s| - 1] == Digits(OverBase(n, base), base) && s[|s| - 1] == DigitChar(ModBase(n, base));
    } else {
      assert s[..0] == [];
    }
  }

  /** Distinct numbers print differently. */
  lemma DigitsInjective(m: nat, n: nat, base: Base)
    requires Digits(m, base) == Digits(n, base)
    ensures m == n
  {
    ValueOfDigits(m, base);
    ValueOfDigits(n, base);
  }

  function Power(base: Base, k: nat): (p: nat)
    ensures 0 < p
  {
    if k == 0 then 1 else TimesBase(Power(base, k - 1), base)
  }

  lemma {:induction false} DigitsFit(n: nat, base: Base, k: nat)
    requires 0 < k
    requires n < Power(base, k)
    ensures |Digits(n, base)| <= k
    decreases k
  {
    if n >= base {
      if k == 1 {
        assert false;
      }
      DigitsFit(OverBase(n, base), base, k - 1);
    }
  }

  /** `String.prototype.padStart(width, "0")`. */
  function PadZeros(s: string, width: nat): (r: string)
    ensures |r| == if |s| < width then width else |s|
    decreases width - |s|
  {
    if |s| < width then PadZeros("0" + s, width) else s
  }

  lemma {:induction false} ValueOfPadded(s: string, width: nat, base: Base)
    requires IsNumeral(s, base)
    ensures var r := PadZeros(s, width);
      IsNumeral(r, base) && Value(r, base) == Value(s, base)
    decreases width - |s|
  {
    if |s| < width {
      ValueOfLeadingZero(s, base);
      ValueOfPadded("0" + s, width, base);
    }
  }

  lemma {:induction false} ValueOfLeadingZero(s: string, base: Base)
    requires IsNumeral(s, base)
    ensures Value("0" + s, base) == Value(s, base)
  {
    var z := "0" + s;
    if s == [] {
      assert z[..0] == [];
    } else {
      ValueOfLeadingZero(s[..|s| - 1], base);
      assert z[..|z| - 1] == "0" + s[..|s| - 1];
    }
  }

  function Pow2(k: nat): (p: nat)
    ensures 0 < p
  {
    if k == 0 then 1 else 2 * Pow2(k - 1)
  }

  // ---------------------------------------------------------------- division

  lemma DivUnique(x: int, y: int, r: int, d: int)
    requires 0 <= r < d && x == y * d + r
    ensures x / d == y && x % d == r
  {
    var q, m := x / d, x % d;
    assert x == q * d + m;
    if q > y {
      TimesMonotone(y + 1, q, d);
    } else if q < y {
      TimesMonotone(q + 1, y, d);
    }
  }

  lemma TimesMonotone(a: int, b: int, d: nat)
    requires a <= b
    ensures a * d <= b * d
  {
  }

  lemma HalfOf(n: nat, p: nat)
    requires 0 < p
    ensures n / p / 2 == n / (2 * p)
  {
    var q, r := n / p, n % p;
    var h := q / 2;
    HalvesTimes(h, p);
    assert n == q * p + r;
    if q % 2 == 0 {
      assert q == 2 * h;
      DivUnique(n, h, r, 2 * p);
    } else {
      assert q == 2 * h + 1;
      DivUnique(n, h, p + r, 2 * p);
    }
  }

  lemma HalvesTimes(h: nat, p: nat)
    ensures (2 * h) * p == h * (2 * p) && (2 * h + 1) * p == h * (2 * p) + p
  {
  }

  /** Half first, then the rest: the same. */
  lemma HalfFirst(n: nat, p: nat)
    requires 0 < p
    ensures n / 2 / p == n / (2 * p)
  {
    var q, r := n / 2 / p, n / 2 % p;
    HalvesTimes(q, p);
    assert n / 2 == q * p + r;
    assert n == (2 * q) * p + (2 * r + n % 2) by {
      assert 2 * (q * p) == (2 * q) * p;
    }
    DivUnique(n, q, 2 * r + n % 2, 2 * p);
  }

  /** The bit of weight two to the `i`-th, as the next lemma says. */
  function Bit(n: nat, i: nat): (b: nat)
    ensures b < 2
  {
    if i == 0 then n % 2 else Bit(n / 2, i - 1)
  }

  lemma {:induction false} BitIs(n: nat, i: nat)
    ensures Bit(n, i) == n / Pow2(i) % 2
  {
    if i > 0 {
      BitIs(n / 2, i - 1);
      HalfFirst(n, Pow2(i - 1));
    }
  }

  // ---------------------------------------------------------------- reading digits

  function LeadingDigits(s: string): (d: string)
    ensures IsNumeral(d, 10) && d <= s && (|d| < |s| ==> !IsDigit(s[|d|], 10))
  {
    if s != "" && IsDigit(s[0], 10) then [s[0]] + LeadingDigits(s[1..]) else ""
  }

  lemma LeadingDigitsOf(d: string, rest: string)
    requires IsNumeral(d, 10) && (rest != "" ==> !IsDigit(rest[0], 10))
    ensures LeadingDigits(d + rest) == d
  {
    var s := d + rest;
    var l := LeadingDigits(s);
    assert |l| < |s| ==> !IsDigit(s[|l|], 10);
    assert |l| >= |d|;
    assert |d| < |s| ==> !IsDigit(s[|d|], 10);
    assert |l| <= |d|;
    assert l == s[..|l|] && d == s[..|d|];
  }
}
