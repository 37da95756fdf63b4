/** Decimal printing, zero padding, and the order of equally long strings. */
module Decimals {

  function Digit(d: nat): char
    requires d < 10
  {
    ('0' as int + d) as char
  }

  predicate IsDigit(c: char) { '0' <= c <= '9' }

  /** str(n) */
  function Decimal(n: nat): (s: string)
    ensures s != [] && forall c | c in s :: IsDigit(c)
  {
    if n < 10 then [Digit(n)] else Decimal(n / 10) + [Digit(n % 10)]
  }

  /** Left padding with zeros, as in format spec `0{width}d`; never truncates. */
  function ZeroPad(s: string, width: nat): (r: string)
    ensures (forall c | c in s :: IsDigit(c)) ==> forall c | c in r :: IsDigit(c)
    decreases width - |s|
  {
    if |s| >= width then s else ZeroPad("0" + s, width)
  }

  /** The number a digit string stands for. */
  function Value(s: string): nat
    requires forall c | c in s :: IsDigit(c)
  {
    if s == [] then 0 else
      assert IsDigit(s[|s| - 1]);
      10 * Value(s[..|s| - 1]) + (s[|s| - 1] as int - '0' as int)
  }

  lemma {:induction false} ValueOfDecimal(n: nat)
    ensures Value(Decimal(n)) == n
  {
    if n >= 10 {
      ValueOfDecimal(n / 10);
      assert Decimal(n)[..|Decimal(n)| - 1] == Decimal(n / 10);
    } else {
      assert [Digit(n)][..0] == [];
    }
  }

  lemma {:induction false} ValueLeadingZero(s: string)
    requires forall c | c in s :: IsDigit(c)
    ensures Value("0" + s) == Value(s)
    decreases |s|
  {
    if s == [] {
      assert ("0" + s)[..0] == [];
    } else {
      ValueLeadingZero(s[..|s| - 1]);
      assert ("0" + s)[..|s|] == "0" + s[..|s| - 1];
    }
  }

  lemma {:induction false} ValueOfPadded(s: string, width: nat)
    requires forall c | c in s :: IsDigit(c)
    ensures Value(ZeroPad(s, width)) == Value(s)
    decreases width - |s|
  {
    if |s| < width {
      ValueOfPadded("0" + s, width);
      ValueLeadingZero(s);
    }
  }

  /** Exactly `width` digits. */
  function Fixed(n: nat, width: nat): (s: string)
    ensures |s| == width
  {
    if width == 0 then [] else Fixed(n / 10, width - 1) + [Digit(n % 10)]
  }

  function Pow10(k: nat): (p: nat)
    ensures p >= 1
  {
    if k == 0 then 1 else 10 * Pow10(k - 1)
  }

  lemma {:induction false} ValueBound(s: string)
    requires forall c | c in s :: IsDigit(c)
    ensures Value(s) < Pow10(|s|)
  {
    if s != [] {
      ValueBound(s[..|s| - 1]);
      assert IsDigit(s[|s| - 1]);
    }
  }

  lemma {:induction false} FixedZero(width: nat)
    ensures forall i | 0 <= i < width :: Fixed(0, width)[i] == '0'
  {
    if width > 0 { FixedZero(width - 1); }
  }

  lemma {:induction false} PadZeros(s: string, width: nat)
    requires |s| <= width
    ensures ZeroPad(s, width) == Fixed(0, width - |s|) + s
    decreases width - |s|
  {
    FixedZero(width - |s|);
    if |s| < width {
      PadZeros("0" + s, width);
      FixedZero(width - |s| - 1);
      assert Fixed(0, width - |s|) == Fixed(0, width - |s| - 1) + "0";
    }
  }

  lemma {:induction false} FixedOfDecimal(n: nat, width: nat)
    requires width >= 1 && n < Pow10(width)
    ensures |Decimal(n)| <= width
    ensures Fixed(n, width) == Fixed(0, width - |Decimal(n)|) + Decimal(n)
    decreases width
  {
    assert Pow10(1) == 10 * Pow10(0);
    if n < 10 {
      assert n / 10 == 0;
    } else {
      assert width >= 2;
      FixedOfDecimal(n / 10, width - 1);
    }
  }

  /** A number that fits is printed with exactly `width` digits. */
  lemma {:induction false} PaddedIsFixed(n: nat, width: nat)
    requires width >= 1 && n < Pow10(width)
    ensures ZeroPad(Decimal(n), width) == Fixed(n, width)
  {
    FixedOfDecimal(n, width);
    PadZeros(Decimal(n), width);
  }

  lemma {:induction false} DecimalFits(n: nat)
    ensures n < Pow10(|Decimal(n)|)
  {
    assert Pow10(1) == 10 * Pow10(0);
    if n >= 10 {
      DecimalFits(n / 10);
      assert n / 10 + 1 <= Pow10(|Decimal(n / 10)|);
    }
  }

  lemma {:induction false} DecimalGrows(m: nat, n: nat)
    requires m <= n
    ensures |Decimal(m)| <= |Decimal(n)|
    decreases n
  {
    if n >= 10 && m >= 10 { DecimalGrows(m / 10, n / 10); }
  }

  lemma {:induction false} ZeroPadWidth(s: string, width: nat)
    ensures |ZeroPad(s, width)| == if |s| <= width then width else |s|
  {
    if |s| <= width { PadZeros(s, width); }
  }

  lemma {:induction false} Pow10Grows(a: nat, b: nat)
    requires a <= b
    ensures Pow10(a) <= Pow10(b)
  {
    if a < b { Pow10Grows(a, b - 1); }
  }

  /** A number without its last `k` digits. */
  function Leading(n: nat, k: nat): nat {
    if k == 0 then n else Leading(n / 10, k - 1)
  }

  /** The first digits and the last ones. */
  lemma {:induction false} FixedSplit(n: nat, a: nat, b: nat)
    requires n < Pow10(a + b)
    ensures Leading(n, b) < Pow10(a)
    ensures Fixed(n, a + b) == Fixed(Leading(n, b), a) + Fixed(n, b)
    decreases b
  {
    if b > 0 {
      FixedSplit(n / 10, a, b - 1);
      assert Fixed(n, a + b) == Fixed(n / 10, a + (b - 1)) + [Digit(n % 10)];
    }
  }

  // ----- String order -----

  /** Strict order character by character. */
  predicate LexLess(a: string, b: string) {
    b != [] && (a == [] || a[0] < b[0] || (a[0] == b[0] && LexLess(a[1..], b[1..])))
  }

  lemma {:induction false} LexConcat(a: string, b: string, c: string, d: string)
    requires |a| == |c|
    ensures LexLess(a + b, c + d) <==> LexLess(a, c) || (a == c && LexLess(b, d))
    ensures a + b == c + d <==> a == c && b == d
  {
    if a == [] {
      assert a + b == b && c + d == d;
    } else {
      LexConcat(a[1..], b, c[1..], d);
      assert (a + b)[1..] == a[1..] + b && (c + d)[1..] == c[1..] + d;
      assert (a + b)[0] == a[0] && (c + d)[0] == c[0];
      if a[0] == c[0] {
        assert a == c <==> a[1..] == c[1..] by {
          assert a == [a[0]] + a[1..] && c == [c[0]] + c[1..];
        }
        assert a + b == c + d <==> (a + b)[1..] == (c + d)[1..] by {
          assert a + b == [a[0]] + (a + b)[1..] && c + d == [c[0]] + (c + d)[1..];
        }
      }
    }
  }

  /** Equally wide numbers compare as strings the way they compare as numbers. */
  lemma {:induction false} FixedOrder(m: nat, n: nat, width: nat)
    requires m < Pow10(width) && n < Pow10(width)
    ensures LexLess(Fixed(m, width), Fixed(n, width)) <==> m < n
    ensures Fixed(m, width) == Fixed(n, width) <==> m == n
  {
    if width > 0 {
      FixedOrder(m / 10, n / 10, width - 1);
      var x, y := [Digit(m % 10)], [Digit(n % 10)];
      LexConcat(Fixed(m / 10, width - 1), x, Fixed(n / 10, width - 1), y);
      assert LexLess(x, y) <==> m % 10 < n % 10;
      assert x == y <==> x[0] == y[0];
    }
  }
}
