/** The sortable ids and slugs of _generate_ref (service/_shared.py). */
module Refs {
  import opened Decimals

  const ID_SEQUENCE_PAD_WIDTH: nat := 5

  /** A UTC second. Years have four digits. */
  datatype Second = Second(year: nat, month: nat, day: nat, hour: nat, minute: nat, second: nat) {
    predicate Valid() {
      1000 <= year < 10000 && 1 <= month <= 12 && 1 <= day <= 31 && hour < 24 && minute < 60 && second < 61
    }

    predicate Before(that: Second) {
      year < that.year || (year == that.year && (month < that.month || (month == that.month && (day < that.day
        || (day == that.day && (hour < that.hour || (hour == that.hour && (minute < that.minute
        || (minute == that.minute && second < that.second)))))))))
    }
  }

  /** YYYYMMDD-HHMMSS */
  function Stamp(t: Second): string {
    (Fixed(t.year, 4) + Fixed(t.month, 2) + Fixed(t.day, 2)) + "-"
    + (Fixed(t.hour, 2) + Fixed(t.minute, 2) + Fixed(t.second, 2))
  }

  /** `head`, a dash, and a sequence number of at least five digits. */
  function Numbered(head: string, n: nat): string {
    (head + "-") + ZeroPad(Decimal(n), ID_SEQUENCE_PAD_WIDTH)
  }

  /** {PREFIX}-{YYYYMMDD}-{HHMMSS}-{sequence number} */
  function Ref(prefix: string, t: Second, n: nat): string {
    Numbered(prefix + "-" + Stamp(t), n)
  }

  /** What follows the last dash of a string is settled by the string. */
  lemma {:induction false} TailAfterDash(a: string, x: string, b: string, y: string)
    requires '-' !in x && '-' !in y
    requires a + "-" + x == b + "-" + y
    ensures x == y
  {
    var s := a + "-" + x;
    assert s[|a|] == '-' && s[|b|] == '-';
    assert forall i | |a| < i < |s| :: s[i] == x[i - |a| - 1] && s[i] in x;
    assert forall i | |b| < i < |s| :: s[i] == y[i - |b| - 1] && s[i] in y;
    assert |a| == |b|;
    assert x == s[|a| + 1..] && y == s[|b| + 1..];
  }

  /** Refs are injective in the sequence number, whatever comes before it. */
  lemma {:induction false} NumberedIsInjective(a: string, m: nat, b: string, n: nat)
    requires Numbered(a, m) == Numbered(b, n)
    ensures m == n
  {
    var w := ID_SEQUENCE_PAD_WIDTH;
    TailAfterDash(a, ZeroPad(Decimal(m), w), b, ZeroPad(Decimal(n), w));
    ValueOfPadded(Decimal(m), w);
    ValueOfPadded(Decimal(n), w);
    ValueOfDecimal(m);
    ValueOfDecimal(n);
  }

  /** Two refs of any prefixes and times are equal only if their numbers are. */
  lemma {:induction false} RefsAreInjective(p: string, t: Second, m: nat, q: string, u: Second, n: nat)
    requires Ref(p, t, m) == Ref(q, u, n)
    ensures m == n
  {
    NumberedIsInjective(p + "-" + Stamp(t), m, q + "-" + Stamp(u), n);
  }

  lemma {:induction false} Widths()
    ensures Pow10(2) == 100 && Pow10(4) == 10000 && Pow10(5) == 100000
  {
    assert Pow10(1) == 10 * Pow10(0);
    assert Pow10(3) == 10 * Pow10(2);
  }

  /** Three fixed-width numbers printed one after the other keep their order. */
  lemma {:induction false} TripleOrder(w: nat, v: nat, a: nat, b: nat, c: nat, a': nat, b': nat, c': nat)
    requires a < Pow10(w) && a' < Pow10(w)
    requires b < Pow10(v) && b' < Pow10(v) && c < Pow10(v) && c' < Pow10(v)
    ensures LexLess(Fixed(a, w) + Fixed(b, v) + Fixed(c, v), Fixed(a', w) + Fixed(b', v) + Fixed(c', v))
            <==> a < a' || (a == a' && (b < b' || (b == b' && c < c')))
    ensures Fixed(a, w) + Fixed(b, v) + Fixed(c, v) == Fixed(a', w) + Fixed(b', v) + Fixed(c', v)
            <==> a == a' && b == b' && c == c'
  {
    FixedOrder(a, a', w);
    FixedOrder(b, b', v);
    FixedOrder(c, c', v);
    TripleLex(Fixed(a, w), Fixed(b, v), Fixed(c, v), Fixed(a', w), Fixed(b', v), Fixed(c', v));
  }

  lemma {:induction false} TripleLex(a: string, b: string, c: string, a': string, b': string, c': string)
    requires |a| == |a'| && |b| == |b'| && |c| == |c'|
    ensures LexLess(a + b + c, a' + b' + c')
            <==> LexLess(a, a') || (a == a' && (LexLess(b, b') || (b == b' && LexLess(c, c'))))
    ensures a + b + c == a' + b' + c' <==> a == a' && b == b' && c == c'
  {
    LexConcat(a, b, a', b');
    LexConcat(a + b, c, a' + b', c');
  }

  lemma {:induction false} LexIrreflexive(a: string)
    ensures !LexLess(a, a)
  {
    if a != [] { LexIrreflexive(a[1..]); }
  }

  lemma {:induction false} StampOrder(t: Second, u: Second)
    requires t.Valid() && u.Valid()
    ensures |Stamp(t)| == |Stamp(u)|
    ensures LexLess(Stamp(t), Stamp(u)) <==> t.Before(u)
    ensures Stamp(t) == Stamp(u) <==> t == u
  {
    Widths();
    var dt, du := Fixed(t.year, 4) + Fixed(t.month, 2) + Fixed(t.day, 2), Fixed(u.year, 4) + Fixed(u.month, 2) + Fixed(u.day, 2);
    var ct, cu := Fixed(t.hour, 2) + Fixed(t.minute, 2) + Fixed(t.second, 2), Fixed(u.hour, 2) + Fixed(u.minute, 2) + Fixed(u.second, 2);
    TripleOrder(4, 2, t.year, t.month, t.day, u.year, u.month, u.day);
    TripleOrder(2, 2, t.hour, t.minute, t.second, u.hour, u.minute, u.second);
    LexIrreflexive("-");
    LexConcat(dt, "-", du, "-");
    LexConcat(dt + "-", ct, du + "-", cu);
  }

  /** For sequence numbers below 100000, string order on refs of one prefix is
      order on (second, sequence number). */
  lemma {:induction false} RefsSortByTime(prefix: string, t: Second, m: nat, u: Second, n: nat)
    requires t.Valid() && u.Valid() && m < 100000 && n < 100000
    ensures LexLess(Ref(prefix, t, m), Ref(prefix, u, n)) <==> t.Before(u) || (t == u && m < n)
  {
    Widths();
    StampOrder(t, u);
    PaddedIsFixed(m, 5);
    PaddedIsFixed(n, 5);
    FixedOrder(m, n, 5);
    LexIrreflexive(prefix + "-");
    LexIrreflexive("-");
    LexConcat(prefix + "-", Stamp(t), prefix + "-", Stamp(u));
    LexConcat(prefix + "-" + Stamp(t), "-", prefix + "-" + Stamp(u), "-");
    LexConcat(prefix + "-" + Stamp(t) + "-", Fixed(m, 5), prefix + "-" + Stamp(u) + "-", Fixed(n, 5));
  }

  lemma {:induction false} SixDigits()
    ensures Decimal(100000) == "100000" && Decimal(99999) == "99999"
  {
    assert Decimal(10) == "10" && Decimal(100) == Decimal(10) + "0" && Decimal(1000) == Decimal(100) + "0";
    assert Decimal(10000) == Decimal(1000) + "0" && Decimal(100000) == Decimal(10000) + "0";
    assert Decimal(99) == "99" && Decimal(999) == Decimal(99) + "9";
    assert Decimal(9999) == Decimal(999) + "9" && Decimal(99999) == Decimal(9999) + "9";
  }

  /** The five-digit bound is tight: within one second, number 100000 sorts before 99999. */
  lemma {:induction false} SixDigitsSortTooEarly(prefix: string, t: Second)
    ensures LexLess(Ref(prefix, t, 100000), Ref(prefix, t, 99999))
  {
    SixDigits();
    var head := prefix + "-" + Stamp(t) + "-";
    var six, five := "100000", "99999";
    assert ZeroPad(six, 5) == six && ZeroPad(five, 5) == five;
    assert six == "10000" + "0" && five == five + "";
    assert LexLess("10000", five);
    LexConcat("10000", "0", five, "");
    LexIrreflexive(head);
    assert LexLess(head + six, head + five) by { HeadsCancel(head, six, five); }
  }

  lemma {:induction false} HeadsCancel(head: string, x: string, y: string)
    ensures LexLess(head + x, head + y) <==> LexLess(x, y)
  {
    LexIrreflexive(head);
    LexConcat(head, x, head, y);
  }

  // ----- Sequence numbers of any size -----

  /** The printed width of a sequence number. */
  function Width(n: nat): nat { |ZeroPad(Decimal(n), ID_SEQUENCE_PAD_WIDTH)| }

  /** A sequence number is printed with exactly its width of digits, and fits in them. */
  lemma {:induction false} PrintedIsFixed(n: nat)
    ensures n < Pow10(Width(n))
    ensures ZeroPad(Decimal(n), ID_SEQUENCE_PAD_WIDTH) == Fixed(n, Width(n))
  {
    var w := ID_SEQUENCE_PAD_WIDTH;
    DecimalFits(n);
    if |Decimal(n)| <= w {
      PadZeros(Decimal(n), w);
      Pow10Grows(|Decimal(n)|, w);
      PaddedIsFixed(n, w);
    } else {
      FixedOfDecimal(n, |Decimal(n)|);
      assert Fixed(0, 0) == [];
    }
  }

  /** Of two printed numbers the shorter comes first exactly when it is no more than the
      leading digits of the longer one. */
  lemma {:induction false} PrintedOrder(m: nat, n: nat)
    ensures var x, y := ZeroPad(Decimal(m), ID_SEQUENCE_PAD_WIDTH), ZeroPad(Decimal(n), ID_SEQUENCE_PAD_WIDTH);
      LexLess(x, y) <==>
        if Width(m) < Width(n) then m <= Leading(n, Width(n) - Width(m))
        else if Width(m) > Width(n) then Leading(m, Width(m) - Width(n)) < n
        else m < n
  {
    PrintedIsFixed(m);
    PrintedIsFixed(n);
    var a, b := Width(m), Width(n);
    if a < b {
      FixedSplit(n, a, b - a);
      var lead := Leading(n, b - a);
      FixedOrder(m, lead, a);
      LexConcat(Fixed(m, a), "", Fixed(lead, a), Fixed(n, b - a));
      assert Fixed(m, a) + "" == Fixed(m, a);
    } else if a > b {
      FixedSplit(m, b, a - b);
      var lead := Leading(m, a - b);
      FixedOrder(lead, n, b);
      LexConcat(Fixed(lead, b), Fixed(m, a - b), Fixed(n, b), "");
      assert Fixed(n, b) + "" == Fixed(n, b);
    } else {
      FixedOrder(m, n, a);
    }
  }

  /** Within one second, for sequence numbers of any size: a lower number sorts first
      if and only if both have one width, or it is no more than as many leading digits
      of the higher one. */
  lemma {:induction false} RefsSortExactly(prefix: string, t: Second, m: nat, n: nat)
    requires m < n
    ensures LexLess(Ref(prefix, t, m), Ref(prefix, t, n))
            <==> Width(m) == Width(n) || (Width(m) < Width(n) && m <= Leading(n, Width(n) - Width(m)))
  {
    PrintedOrder(m, n);
    PrintedIsFixed(m);
    PrintedIsFixed(n);
    WidthGrows(m, n);
    HeadsCancel((prefix + "-" + Stamp(t)) + "-", ZeroPad(Decimal(m), ID_SEQUENCE_PAD_WIDTH),
                ZeroPad(Decimal(n), ID_SEQUENCE_PAD_WIDTH));
  }

  /** A higher number is never printed shorter. */
  lemma {:induction false} WidthGrows(m: nat, n: nat)
    requires m <= n
    ensures Width(m) <= Width(n)
  {
    DecimalGrows(m, n);
    ZeroPadWidth(Decimal(m), ID_SEQUENCE_PAD_WIDTH);
    ZeroPadWidth(Decimal(n), ID_SEQUENCE_PAD_WIDTH);
  }

  /** All the numbers below a bound sort right if and only if the bound is at most 100000. */
  lemma {:induction false} FiveDigitsExactly(prefix: string, t: Second, bound: nat)
    requires t.Valid()
    ensures (forall m: nat, n: nat | m < n < bound :: LexLess(Ref(prefix, t, m), Ref(prefix, t, n))) <==> bound <= 100000
  {
    if bound <= 100000 {
      forall m: nat, n: nat | m < n < bound ensures LexLess(Ref(prefix, t, m), Ref(prefix, t, n)) {
        RefsSortByTime(prefix, t, m, t, n);
      }
    } else {
      SixDigitsSortTooEarly(prefix, t);
      LexAsymmetric(Ref(prefix, t, 100000), Ref(prefix, t, 99999));
    }
  }

  lemma {:induction false} LexAsymmetric(a: string, b: string)
    requires LexLess(a, b)
    ensures !LexLess(b, a)
  {
    if a != [] && a[0] == b[0] { LexAsymmetric(a[1..], b[1..]); }
  }

  lemma {:induction false} TwoDigits(n: nat)
    requires n < 100
    ensures Fixed(n, 2) == [Digit(n / 10), Digit(n % 10)]
  {
    assert Fixed(n / 10 / 10, 0) == "" && Fixed(n / 10, 1) == [Digit(n / 10 % 10)];
  }

  lemma {:induction false} ExampleDate()
    ensures Fixed(2026, 4) + Fixed(7, 2) + Fixed(18, 2) == "20260718"
  {
    TwoDigits(20);
    TwoDigits(7);
    TwoDigits(18);
    assert Fixed(202, 3) == Fixed(20, 2) + [Digit(2)] && Fixed(2026, 4) == Fixed(202, 3) + [Digit(6)];
  }

  lemma {:induction false} ExampleClock()
    ensures Fixed(16, 2) + Fixed(2, 2) + Fixed(17, 2) == "160217"
  {
    TwoDigits(16);
    TwoDigits(2);
    TwoDigits(17);
  }

  lemma {:induction false} ExampleNumber()
    ensures ZeroPad(Decimal(397), 5) == "00397"
  {
    assert Decimal(3) == "3" && Decimal(39) == "39" && Decimal(397) == "397";
    assert "0" + "397" == "0397" && "0" + "0397" == "00397";
    assert ZeroPad("0397", 5) == ZeroPad("00397", 5) && ZeroPad("397", 5) == ZeroPad("0397", 5);
  }

  /** The ref the source gives as its example, RUN-20260718-160217-00397. */
  lemma {:induction false} RefExample()
    ensures Ref("RUN", Second(2026, 7, 18, 16, 2, 17), 397) == ("RUN" + "-" + ("20260718" + "-" + "160217")) + "-" + "00397"
  {
    ExampleDate();
    ExampleClock();
    ExampleNumber();
  }

  // ----- Drawing refs -----

  /** One of the two ref sequences. `issued` are the refs made from it so far. */
  class RefSequence {
    var last: nat
    ghost var issued: set<string>

    /** Every issued ref carries a number the sequence has already given out. */
    ghost predicate Valid()
      reads this
    {
      forall r | r in issued :: exists p, t, n: nat :: n <= last && r == Ref(p, t, n)
    }

    constructor (start: nat)
      ensures Valid() && last == start && issued == {}
    {
      last, issued := start, {};
    }

    /** nextval, then formatting. No ref is ever made twice, whatever the prefixes
        and however the clock moves between calls. */
    method GenerateRef(prefix: string, now: Second) returns (r: string)
      requires Valid()
      modifies this
      ensures Valid()
      ensures last == old(last) + 1 && r == Ref(prefix, now, last)
      ensures r !in old(issued) && issued == old(issued) + {r}
    {
      last := last + 1;
      r := Ref(prefix, now, last);
      if r in issued {
        var p, t, n: nat :| n < last && r == Ref(p, t, n);
        RefsAreInjective(prefix, now, last, p, t, n);
      }
      issued := issued + {r};
      forall x | x in issued ensures exists p, t, n: nat :: n <= last && x == Ref(p, t, n) {
        if x != r {
          var p, t, n: nat :| n <= old(last) && x == Ref(p, t, n);
        }
      }
    }
  }
}
