/** Month labels "YYYY-MM" and calendar-month arithmetic, as the scripts use
    them to label forecast months: `new Date(last + "-01")`, `setMonth(getMonth()
    + i)` and `toISOString().slice(0, 7)`. */
module Calendar {
  import opened Wrappers
  import opened Ordering

  /** A calendar month; `month` runs from 1 (January) to 12. */
  datatype YearMonth = YearMonth(year: int, month: int)

  predicate ValidMonth(ym: YearMonth) {
    1 <= ym.month <= 12
  }

  /** Months elapsed since January of year 0. */
  function Ordinal(ym: YearMonth): int {
    ym.year * 12 + ym.month - 1
  }

  function FromOrdinal(n: int): (ym: YearMonth)
    ensures ValidMonth(ym) && Ordinal(ym) == n
  {
    YearMonth(n / 12, n % 12 + 1)
  }

  /** The month `k` months after `ym`, as `setMonth(getMonth() + k)` moves a
      date on the first of a month. */
  function AddMonths(ym: YearMonth, k: int): YearMonth {
    FromOrdinal(Ordinal(ym) + k)
  }

  /** Adding months moves the ordinal by exactly that many months, stays a
      real month, and composes. */
  lemma AddMonthsOrdinal(ym: YearMonth, a: int, b: int)
    ensures ValidMonth(AddMonths(ym, a))
    ensures Ordinal(AddMonths(ym, a)) == Ordinal(ym) + a
    ensures AddMonths(AddMonths(ym, a), b) == AddMonths(ym, a + b)
  {
  }

  /** A valid month is determined by its ordinal. */
  lemma OrdinalInjective(a: YearMonth, b: YearMonth)
    requires ValidMonth(a) && ValidMonth(b) && Ordinal(a) == Ordinal(b)
    ensures a == b
  {
    assert Ordinal(a) / 12 == a.year && Ordinal(b) / 12 == b.year;
  }

  // ---- decimal digits ----

  function Pow10(w: nat): nat {
    if w == 0 then 1 else 10 * Pow10(w - 1)
  }

  predicate IsDigit(c: char) {
    '0' <= c <= '9'
  }

  function DigitChar(d: nat): char
    requires d < 10
  {
    (48 + d) as char
  }

  /** `n` written with exactly `w` decimal digits, zero-padded on the left. */
  function Pad(n: nat, w: nat): (s: string)
    ensures |s| == w
    ensures forall i :: 0 <= i < |s| ==> IsDigit(s[i])
  {
    if w == 0 then "" else Pad(n / 10, w - 1) + [DigitChar(n % 10)]
  }

  /** The number a string of decimal digits denotes. */
  function DigitsValue(s: string): nat
    requires forall i :: 0 <= i < |s| ==> IsDigit(s[i])
  {
    if s == [] then 0
    else
      assert IsDigit(s[|s| - 1]);
      DigitsValue(s[..|s| - 1]) * 10 + (s[|s| - 1] as int - 48)
  }

  /** Reading a padded number gives the number back. */
  lemma {:induction false} DigitsValuePad(n: nat, w: nat)
    requires n < Pow10(w)
    ensures DigitsValue(Pad(n, w)) == n
  {
    if w > 0 {
      DigitsValuePad(n / 10, w - 1);
      assert Pad(n, w)[..w - 1] == Pad(n / 10, w - 1);
    }
  }

  /** Padding the number a digit string denotes gives the string back. */
  lemma {:induction false} PadDigitsValue(s: string)
    requires forall i :: 0 <= i < |s| ==> IsDigit(s[i])
    ensures DigitsValue(s) < Pow10(|s|)
    ensures Pad(DigitsValue(s), |s|) == s
  {
    if s != [] {
      var init := s[..|s| - 1];
      PadDigitsValue(init);
      var v := DigitsValue(s);
      assert v / 10 == DigitsValue(init);
      assert s == init + [s[|s| - 1]];
    }
  }

  /** A smaller number pads to a string that sorts first. */
  lemma {:induction false} PadLess(n: nat, m: nat, w: nat)
    requires n < m < Pow10(w)
    ensures Less(Pad(n, w), Pad(m, w))
  {
    if n / 10 < m / 10 {
      PadLess(n / 10, m / 10, w - 1);
      LessExtend(Pad(n / 10, w - 1), Pad(m / 10, w - 1), [DigitChar(n % 10)], [DigitChar(m % 10)]);
    } else {
      LessAt(Pad(n / 10, w - 1), DigitChar(n % 10), DigitChar(m % 10));
    }
  }

  /** Strings of the same length keep their order whatever follows them. */
  lemma {:induction false} LessExtend(s: string, t: string, u: string, v: string)
    requires |s| == |t| && Less(s, t)
    ensures Less(s + u, t + v)
  {
    if s[0] == t[0] {
      assert (s + u)[1..] == s[1..] + u && (t + v)[1..] == t[1..] + v;
      LessExtend(s[1..], t[1..], u, v);
    }
  }

  /** A common prefix followed by a smaller character sorts first. */
  lemma {:induction false} LessAt(p: string, c: char, d: char)
    requires c < d
    ensures Less(p + [c], p + [d])
  {
    if p != [] {
      assert (p + [c])[1..] == p[1..] + [c] && (p + [d])[1..] == p[1..] + [d];
      LessAt(p[1..], c, d);
    }
  }

  /** A common prefix keeps the order of what follows it. */
  lemma {:induction false} LessPrefix(p: string, u: string, v: string)
    requires Less(u, v)
    ensures Less(p + u, p + v)
  {
    if p != [] {
      assert (p + u)[0] == (p + v)[0];
      assert (p + u)[1..] == p[1..] + u && (p + v)[1..] == p[1..] + v;
      LessPrefix(p[1..], u, v);
    } else {
      assert p + u == u && p + v == v;
    }
  }

  // ---- "YYYY-MM" labels ----

  /** Years that `toISOString` writes with four digits. */
  predicate FourDigitYear(ym: YearMonth) {
    0 <= ym.year <= 9999
  }

  /** `toISOString().slice(0, 7)` of a date in month `ym`: "YYYY-MM" for a
      four-digit year, and otherwise the sign and six year digits of the
      expanded year format (the month does not fit in the seven characters). */
  function Format(ym: YearMonth): (s: string)
    requires ValidMonth(ym)
    ensures |s| == 7
  {
    if FourDigitYear(ym) then Pad(ym.year, 4) + "-" + Pad(ym.month, 2)
    else
      (if ym.year < 0 then "-" else "+") + Pad(if ym.year < 0 then -ym.year else ym.year, 6)
  }

  /** Reads a label "YYYY-MM" the way `new Date(label + "-01")` accepts it:
      four digits, a dash, and a two-digit month from 01 to 12. Anything else
      is an invalid date. */
  function ParseMonth(s: string): (r: Option<YearMonth>)
    ensures r.Some? ==> ValidMonth(r.value) && FourDigitYear(r.value)
  {
    if |s| == 7 && s[4] == '-'
       && (forall i :: 0 <= i < 4 ==> IsDigit(s[i]))
       && IsDigit(s[5]) && IsDigit(s[6])
    then
      PadDigitsValue(s[..4]);
      var month := DigitsValue(s[5..]);
      if 1 <= month <= 12 then Some(YearMonth(DigitsValue(s[..4]), month)) else None
    else None
  }

  /** Formatting a month with a four-digit year and reading it back gives the
      month back. */
  lemma ParseFormat(ym: YearMonth)
    requires ValidMonth(ym) && FourDigitYear(ym)
    ensures ParseMonth(Format(ym)) == Some(ym)
  {
    var s := Format(ym);
    assert s[..4] == Pad(ym.year, 4);
    assert s[5..] == Pad(ym.month, 2);
    DigitsValuePad(ym.year, 4);
    DigitsValuePad(ym.month, 2);
  }

  /** A label that reads as a month is exactly that month's formatted label. */
  lemma FormatParse(s: string)
    requires ParseMonth(s).Some?
    ensures Format(ParseMonth(s).value) == s
  {
    PadDigitsValue(s[..4]);
    PadDigitsValue(s[5..]);
    assert s == s[..4] + "-" + s[5..];
  }

  /** For four-digit years the label order is the chronological order. */
  lemma FormatChronological(a: YearMonth, b: YearMonth)
    requires ValidMonth(a) && FourDigitYear(a) && ValidMonth(b) && FourDigitYear(b)
    requires Ordinal(a) < Ordinal(b)
    ensures Less(Format(a), Format(b))
  {
    if a.year < b.year {
      PadLess(a.year, b.year, 4);
      LessExtend(Pad(a.year, 4), Pad(b.year, 4), "-" + Pad(a.month, 2), "-" + Pad(b.month, 2));
      assert Format(a) == Pad(a.year, 4) + ("-" + Pad(a.month, 2));
      assert Format(b) == Pad(b.year, 4) + ("-" + Pad(b.month, 2));
    } else {
      PadLess(a.month, b.month, 2);
      LessPrefix(Pad(a.year, 4) + "-", Pad(a.month, 2), Pad(b.month, 2));
    }
  }

  /** The labels of the `count` months after `last`: element k (from 0) is
      `last` advanced by k + 1 months. */
  function MonthsAfter(last: YearMonth, count: nat): (r: seq<string>)
    requires ValidMonth(last)
    ensures |r| == count
  {
    seq(count, k requires 0 <= k < count => Format(AddMonths(last, k + 1)))
  }

  /** The labels after a month are strictly ascending and all sort after the
      month's own label, as long as the years stay four-digit. */
  lemma MonthsAfterSorted(last: YearMonth, count: nat)
    requires ValidMonth(last) && 0 <= last.year
    requires Ordinal(last) + count < 10000 * 12
    ensures Sorted(MonthsAfter(last, count))
    ensures forall k :: 0 <= k < count ==> Less(Format(last), MonthsAfter(last, count)[k])
  {
    var r := MonthsAfter(last, count);
    forall i, j | 0 <= i < j < count ensures Less(r[i], r[j]) {
      LaterMonthLater(last, i + 1, j + 1);
    }
    forall k | 0 <= k < count ensures Less(Format(last), r[k]) {
      LaterMonthLater(last, 0, k + 1);
    }
  }

  /** Of two months after `last`, the later one has the later label. */
  lemma LaterMonthLater(last: YearMonth, a: nat, b: nat)
    requires ValidMonth(last) && 0 <= last.year
    requires a < b && Ordinal(last) + b < 10000 * 12
    ensures Less(Format(AddMonths(last, a)), Format(AddMonths(last, b)))
    ensures a == 0 ==> AddMonths(last, a) == last
  {
    AddMonthsFourDigit(last, a);
    AddMonthsFourDigit(last, b);
    OrdinalInjective(AddMonths(last, 0), last);
    FormatChronological(AddMonths(last, a), AddMonths(last, b));
  }

  lemma AddMonthsFourDigit(last: YearMonth, k: nat)
    requires ValidMonth(last) && 0 <= last.year
    requires Ordinal(last) + k < 10000 * 12
    ensures ValidMonth(AddMonths(last, k)) && FourDigitYear(AddMonths(last, k))
    ensures Ordinal(AddMonths(last, k)) == Ordinal(last) + k
    ensures FourDigitYear(last)
  {
    var n := Ordinal(last) + k;
    assert 0 <= n / 12 < 10000;
  }
}
