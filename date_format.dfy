/** `dateToYMD` and the JavaScript string ordering that the start-window
    selector applies to its results. */
module DateFormat {

  /** A calendar day as a JavaScript Date reports it: `getFullYear()`,
      the zero-based `getMonth()` and the day of the month `getDate()`. */
  datatype Day = Day(year: int, monthIndex: int, date: int)

  /** The ranges that `getMonth()` and `getDate()` always return. */
  predicate WellFormed(d: Day) {
    0 <= d.monthIndex <= 11 && 1 <= d.date <= 31
  }

  /** The years for which `String(year)` has exactly four digits. */
  predicate FourDigitYear(d: Day) {
    1000 <= d.year <= 9999
  }

  /** Chronological order of days: by year, then month, then day. */
  predicate Before(a: Day, b: Day) {
    a.year < b.year ||
    (a.year == b.year && (a.monthIndex < b.monthIndex ||
                          (a.monthIndex == b.monthIndex && a.date < b.date)))
  }

  // ---------------------------------------------------------------------
  // JavaScript string comparison

  /** JavaScript's `a < b` on strings: lexicographic order of the characters,
      where a proper prefix comes first. */
  predicate LexLess(a: string, b: string)
    decreases |a|
  {
    if |a| == 0 then |b| > 0
    else if |b| == 0 then false
    else if a[0] != b[0] then a[0] < b[0]
    else LexLess(a[1..], b[1..])
  }

  /** No string is below itself. */
  lemma {:induction false} LexLessIrreflexive(a: string)
    ensures !LexLess(a, a)
    decreases |a|
  {
    if |a| > 0 {
      LexLessIrreflexive(a[1..]);
    }
  }

  /** Of two different strings, exactly one is below the other. */
  lemma {:induction false} LexLessTrichotomy(a: string, b: string)
    ensures a == b || LexLess(a, b) || LexLess(b, a)
    ensures !(LexLess(a, b) && LexLess(b, a))
    decreases |a|
  {
    if |a| > 0 && |b| > 0 && a[0] == b[0] {
      LexLessTrichotomy(a[1..], b[1..]);
      if a[1..] == b[1..] {
        assert a == [a[0]] + a[1..] && b == [b[0]] + b[1..];
      }
    }
  }

  /** Comparing two strings that start with parts of equal length compares the
      first parts, and the rest only when the first parts are equal. */
  lemma {:induction false} LexLessAppend(x: string, y: string, x': string, y': string)
    requires |x| == |x'|
    ensures LexLess(x + y, x' + y') <==> LexLess(x, x') || (x == x' && LexLess(y, y'))
    decreases |x|
  {
    if |x| == 0 {
      assert x + y == y && x' + y' == y';
    } else {
      assert (x + y)[0] == x[0] && (x' + y')[0] == x'[0];
      assert (x + y)[1..] == x[1..] + y && (x' + y')[1..] == x'[1..] + y';
      LexLessAppend(x[1..], y, x'[1..], y');
      if x[0] == x'[0] {
        assert x == x' <==> x[1..] == x'[1..] by {
          assert x == [x[0]] + x[1..] && x' == [x'[0]] + x'[1..];
        }
      }
    }
  }

  // ---------------------------------------------------------------------
  // Decimal rendering

  function DigitChar(n: int): (c: char)
    requires 0 <= n <= 9
    ensures '0' <= c <= '9'
  {
    ('0' as int + n) as char
  }

  /** JavaScript's `String(n)` for a non-negative integer: its shortest decimal
      representation. */
  function NatToString(n: nat): (s: string)
    ensures |s| >= 1
    decreases n
  {
    if n < 10 then [DigitChar(n)] else NatToString(n / 10) + [DigitChar(n % 10)]
  }

  /** JavaScript's `String(n)` for any integer. */
  function IntToString(n: int): string {
    if n < 0 then "-" + NatToString(-n) else NatToString(n)
  }

  /** JavaScript's `s.padStart(width, fill)` with a one-character `fill`. */
  function PadStart(s: string, width: nat, fill: char): (r: string)
    ensures |r| == if |s| < width then width else |s|
    ensures r[|r| - |s|..] == s
    ensures forall k :: 0 <= k < |r| - |s| ==> r[k] == fill
  {
    if |s| >= width then s else seq(width - |s|, _ => fill) + s
  }

  /** The string `${y}-${m}-${da}` that `dateToYMD` builds. */
  function DateToYMD(d: Day): string {
    IntToString(d.year) + "-" + PadStart(IntToString(d.monthIndex + 1), 2, '0') + "-"
      + PadStart(IntToString(d.date), 2, '0')
  }

  // ---------------------------------------------------------------------
  // Fixed-width digits: the reference the formatter is compared against

  function Pow10(k: nat): (p: nat)
    ensures p >= 1
  {
    if k == 0 then 1 else 10 * Pow10(k - 1)
  }

  lemma Pow10Values()
    ensures Pow10(1) == 10 && Pow10(2) == 100 && Pow10(3) == 1000 && Pow10(4) == 10000
  {
  }

  /** The last `k` decimal digits of `n`, most significant first. */
  function Digits(n: nat, k: nat): (s: string)
    ensures |s| == k
  {
    if k == 0 then [] else Digits(n / 10, k - 1) + [DigitChar(n % 10)]
  }

  /** A number of exactly `k` digits prints as its `k` fixed-width digits. */
  lemma {:induction false} NatToStringIsDigits(n: nat, k: nat)
    requires k >= 1 && n < Pow10(k) && (k > 1 ==> Pow10(k - 1) <= n)
    ensures NatToString(n) == Digits(n, k)
  {
    assert Pow10(1) == 10;
    if k == 1 {
      assert Digits(n / 10, 0) == [];
    } else {
      assert Pow10(k - 1) == 10 * Pow10(k - 2);
      NatToStringIsDigits(n / 10, k - 1);
    }
  }

  /** Padding a one- or two-digit number to width 2 gives its two digits. */
  lemma PaddedTwoDigits(n: nat)
    requires n < 100
    ensures PadStart(IntToString(n), 2, '0') == Digits(n, 2)
  {
    if n < 10 {
      NatToStringIsDigits(n, 1);
      assert Digits(n / 10, 1) == Digits(0, 0) + [DigitChar(0)];
    } else {
      NatToStringIsDigits(n, 2);
    }
  }

  /** A four-digit year prints as its four digits. */
  lemma YearDigits(y: int)
    requires 1000 <= y <= 9999
    ensures IntToString(y) == Digits(y, 4)
  {
    Pow10Values();
    NatToStringIsDigits(y, 4);
  }

  /** For numbers below 10^k, string order of the fixed-width digits is
      numeric order, and equal digits mean equal numbers. */
  lemma {:induction false} DigitsOrder(a: nat, b: nat, k: nat)
    requires a < Pow10(k) && b < Pow10(k)
    ensures LexLess(Digits(a, k), Digits(b, k)) <==> a < b
    ensures Digits(a, k) == Digits(b, k) <==> a == b
  {
    if k == 0 {
      LexLessIrreflexive([]);
    } else {
      assert Pow10(k) == 10 * Pow10(k - 1);
      DigitsOrder(a / 10, b / 10, k - 1);
      var da, db := [DigitChar(a % 10)], [DigitChar(b % 10)];
      LexLessAppend(Digits(a / 10, k - 1), da, Digits(b / 10, k - 1), db);
      assert LexLess(da, db) <==> a % 10 < b % 10 by {
        assert da[1..] == [] && db[1..] == [];
        LexLessIrreflexive([]);
      }
      if Digits(a, k) == Digits(b, k) {
        assert Digits(a / 10, k - 1) == Digits(a, k)[..k - 1] == Digits(b, k)[..k - 1] == Digits(b / 10, k - 1);
        assert Digits(a, k)[k - 1] == DigitChar(a % 10) && Digits(b, k)[k - 1] == DigitChar(b % 10);
      }
    }
  }

  /** The "YYYY-MM-DD" string of a day, built from fixed-width digits. */
  function FixedWidthYMD(d: Day): string
    requires WellFormed(d) && FourDigitYear(d)
  {
    Dash(Digits(d.year, 4), Dash(Digits(d.monthIndex + 1, 2), Digits(d.date, 2)))
  }

  /** On well-formed days with four-digit years, `dateToYMD` is the
      fixed-width rendering. */
  lemma YMDAsDigits(d: Day)
    requires WellFormed(d) && FourDigitYear(d)
    ensures DateToYMD(d) == FixedWidthYMD(d)
  {
    YearDigits(d.year);
    PaddedTwoDigits(d.monthIndex + 1);
    PaddedTwoDigits(d.date);
    Regroup(IntToString(d.year), PadStart(IntToString(d.monthIndex + 1), 2, '0'), PadStart(IntToString(d.date), 2, '0'));
  }

  lemma Regroup(y: string, m: string, da: string)
    ensures y + "-" + m + "-" + da == Dash(y, Dash(m, da))
  {
  }

  /** `dateToYMD` produces ten characters "YYYY-MM-DD": digits everywhere
      except the dashes at positions 4 and 7. */
  lemma YMDShape(d: Day)
    requires WellFormed(d) && FourDigitYear(d)
    ensures |DateToYMD(d)| == 10
    ensures DateToYMD(d)[4] == '-' && DateToYMD(d)[7] == '-'
    ensures forall k :: 0 <= k < 10 && k != 4 && k != 7 ==> '0' <= DateToYMD(d)[k] <= '9'
  {
    YMDAsDigits(d);
    DigitsAreDigits(d.year, 4);
    DigitsAreDigits(d.monthIndex + 1, 2);
    DigitsAreDigits(d.date, 2);
    PartsShape(Digits(d.year, 4), Digits(d.monthIndex + 1, 2), Digits(d.date, 2));
  }

  lemma PartsShape(y: string, m: string, da: string)
    requires |y| == 4 && |m| == 2 && |da| == 2
    requires AllDigits(y) && AllDigits(m) && AllDigits(da)
    ensures var t := Dash(y, Dash(m, da));
      |t| == 10 && t[4] == '-' && t[7] == '-' &&
      forall k :: 0 <= k < 10 && k != 4 && k != 7 ==> '0' <= t[k] <= '9'
  {
    var t := Dash(y, Dash(m, da));
    assert forall k :: 0 <= k < 4 ==> t[k] == y[k];
    assert forall k :: 5 <= k < 7 ==> t[k] == m[k - 5];
    assert forall k :: 8 <= k < 10 ==> t[k] == da[k - 8];
  }

  predicate AllDigits(t: string) {
    forall k :: 0 <= k < |t| ==> '0' <= t[k] <= '9'
  }

  lemma {:induction false} DigitsAreDigits(n: nat, k: nat)
    ensures AllDigits(Digits(n, k))
  {
    if k > 0 {
      DigitsAreDigits(n / 10, k - 1);
    }
  }

  /** On well-formed days with four-digit years, comparing the `dateToYMD`
      strings as JavaScript does is comparing the days chronologically, and
      the strings are equal exactly when the days are. */
  lemma DateToYMDOrder(a: Day, b: Day)
    requires WellFormed(a) && FourDigitYear(a) && WellFormed(b) && FourDigitYear(b)
    ensures LexLess(DateToYMD(a), DateToYMD(b)) <==> Before(a, b)
    ensures DateToYMD(a) == DateToYMD(b) <==> a == b
  {
    YMDAsDigits(a);
    YMDAsDigits(b);
    FixedWidthOrder(a, b);
    FixedWidthOrder(b, a);
    LexLessIrreflexive(FixedWidthYMD(a));
  }

  lemma FixedWidthOrder(a: Day, b: Day)
    requires WellFormed(a) && FourDigitYear(a) && WellFormed(b) && FourDigitYear(b)
    ensures LexLess(FixedWidthYMD(a), FixedWidthYMD(b)) <==> Before(a, b)
  {
    TripleOrder(a.year, a.monthIndex + 1, a.date, b.year, b.monthIndex + 1, b.date);
  }

  /** Fixed-width "YYYY-MM-DD" strings compare as (year, month, day) triples. */
  lemma TripleOrder(y: nat, m: nat, d: nat, y': nat, m': nat, d': nat)
    requires y < 10000 && m < 100 && d < 100 && y' < 10000 && m' < 100 && d' < 100
    ensures LexLess(Dash(Digits(y, 4), Dash(Digits(m, 2), Digits(d, 2))),
                    Dash(Digits(y', 4), Dash(Digits(m', 2), Digits(d', 2)))) <==>
      y < y' || (y == y' && (m < m' || (m == m' && d < d')))
  {
    Pow10Values();
    DigitsOrder(y, y', 4);
    DigitsOrder(m, m', 2);
    DigitsOrder(d, d', 2);
    JoinOrder(Digits(y, 4), Digits(m, 2), Digits(d, 2), Digits(y', 4), Digits(m', 2), Digits(d', 2));
  }

  /** The order of "Y-M-D" strings built from parts of equal widths is
      decided part by part. */
  lemma JoinOrder(ya: string, ma: string, da: string, yb: string, mb: string, db: string)
    requires |ya| == |yb| && |ma| == |mb|
    ensures LexLess(Dash(ya, Dash(ma, da)), Dash(yb, Dash(mb, db))) <==>
      LexLess(ya, yb) || (ya == yb && (LexLess(ma, mb) || (ma == mb && LexLess(da, db))))
  {
    Tier(ma, da, mb, db);
    Tier(ya, Dash(ma, da), yb, Dash(mb, db));
  }

  /** `x + "-" + t`. */
  function Dash(x: string, t: string): string {
    x + ("-" + t)
  }

  /** One "part-dash-rest" step of `JoinOrder`. */
  lemma Tier(x: string, t: string, x': string, t': string)
    requires |x| == |x'|
    ensures LexLess(Dash(x, t), Dash(x', t')) <==> LexLess(x, x') || (x == x' && LexLess(t, t'))
  {
    DashPrefix(t, t');
    LexLessAppend(x, "-" + t, x', "-" + t');
  }

  lemma DashPrefix(p: string, q: string)
    ensures LexLess("-" + p, "-" + q) <==> LexLess(p, q)
  {
    LexLessIrreflexive("-");
    LexLessAppend("-", p, "-", q);
  }
}
