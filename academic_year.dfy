/**
 * Academic-year labels. The tracker offers options "AY yyyy/yyyy" up to the
 * current academic year, which changes on 6 August; the chosen option is cut
 * into the catalog key "yyyy-yyyy", which is cut again into the label
 * "yyyy/yyyy" stored with each course row. The forecast builds the key of the
 * latest academic year directly. The current year and the "mm-dd" date are
 * parameters.
 */
module AcademicYear {

  /** The "mm-dd" date from which the next academic year is offered. */
  const Cutoff: string := "08-06"

  /** Python's `<` on strings: lexicographic order of code points. */
  predicate StrLess(a: string, b: string)
  {
    if b == [] then false
    else if a == [] then true
    else if a[0] != b[0] then a[0] < b[0]
    else StrLess(a[1..], b[1..])
  }

  /** The two-digit field of `strftime`'s "%m" and "%d". */
  function TwoDigits(n: nat): string
    requires n < 100
  {
    [DigitChar(n / 10), DigitChar(n % 10)]
  }

  /** The "mm-dd" text of month m, day d. */
  function MonthDay(m: nat, d: nat): string
    requires m < 100 && d < 100
  {
    TwoDigits(m) + "-" + TwoDigits(d)
  }

  /** Whether the date is before the cutoff, so the current academic year started last calendar year. */
  predicate BeforeCutoff(mthDay: string)
  {
    StrLess(mthDay, Cutoff)
  }

  function DigitChar(d: nat): char
    requires d < 10
  {
    "0123456789"[d]
  }

  /** The decimal numeral of n. */
  function Digits(n: nat): string
  {
    if n < 10 then [DigitChar(n)] else Digits(n / 10) + [DigitChar(n % 10)]
  }

  /** Python's `str` of an integer. */
  function IntText(n: int): string
  {
    if n < 0 then "-" + Digits(-n) else Digits(n)
  }

  /** Python's `s[lo:hi]` for non-negative bounds: out-of-range bounds are clamped. */
  function Slice(s: string, lo: nat, hi: nat): string
  {
    var a := if lo < |s| then lo else |s|;
    var b := if hi < |s| then hi else |s|;
    if a <= b then s[a..b] else []
  }

  /** Python's `s[lo:]`. */
  function From(s: string, lo: nat): string
  {
    Slice(s, lo, |s|)
  }

  /** The option "AY y/(y+1)" for the academic year starting in year y. */
  function OptionLabel(y: int): string
  {
    "AY " + IntText(y) + "/" + IntText(y + 1)
  }

  /** The n options "AY y/(y+1)" for y = first, first + 1, ... */
  function LabelRun(first: int, n: nat): (r: seq<string>)
    ensures |r| == n
  {
    seq(n, i => OptionLabel(first + i))
  }

  /** The options of the academic-year selector for the given year and date. */
  function Options(year: int, mthDay: string): seq<string>
  {
    if BeforeCutoff(mthDay) then
      // one option "AY (yr-1)/yr" for each yr from 2019 to year
      LabelRun(2019 - 1, if year >= 2019 then year - 2018 else 0)
    else
      // one option "AY yr/(yr+1)" for each yr from 2018 to year
      LabelRun(2018, if year >= 2018 then year - 2017 else 0)
  }

  /** The option the selector starts on: the last one. */
  function DefaultOption(options: seq<string>): string
    requires options != []
  {
    options[|options| - 1]
  }

  /** The catalog key of a selected option: `opt[3:7] + "-" + opt[8:]`. */
  function ApiKey(opt: string): string
  {
    Slice(opt, 3, 7) + "-" + From(opt, 8)
  }

  /** The label stored in a course row: `key[:4] + "/" + key[5:]`. */
  function StoredLabel(key: string): string
  {
    Slice(key, 0, 4) + "/" + From(key, 5)
  }

  /** The categories of the "AY Taken" column: every option without its "AY " prefix. */
  function AllAY(options: seq<string>): seq<string>
  {
    seq(|options|, i requires 0 <= i < |options| => From(options[i], 3))
  }

  /** The catalog key "y-(y+1)" of the academic year starting in year y. */
  function YearKey(y: int): string
  {
    IntText(y) + "-" + IntText(y + 1)
  }

  /** The catalog key of the latest academic year, as the forecast builds it. */
  function LatestKey(year: int, mthDay: string): string
  {
    if BeforeCutoff(mthDay) then YearKey(year - 1) else YearKey(year)
  }
}

/** Properties of the academic-year labels: their shape, their cuts and the round trip. */
module AcademicYearProperties {
  import opened AcademicYear

  /** Digit characters are ordered as their digits. */
  lemma DigitOrder(a: nat, b: nat)
    requires a < 10 && b < 10
    ensures DigitChar(a) < DigitChar(b) <==> a < b
    ensures DigitChar(a) == DigitChar(b) <==> a == b
  {
    assert DigitChar(a) as int == '0' as int + a;
    assert DigitChar(b) as int == '0' as int + b;
  }

  /** Comparing two strings with the same first character compares their tails. */
  lemma StrLessTail(a: string, b: string)
    requires a != [] && b != [] && a[0] == b[0]
    ensures StrLess(a, b) == StrLess(a[1..], b[1..])
  {
  }

  /** The string test against the cutoff is the calendar test: before 6 August. */
  lemma CutoffIsDateOrder(m: nat, d: nat)
    requires 1 <= m <= 12 && 1 <= d <= 31
    ensures BeforeCutoff(MonthDay(m, d)) <==> m < 8 || (m == 8 && d < 6)
  {
    var t := MonthDay(m, d);
    var c := Cutoff;
    assert t == [DigitChar(m / 10), DigitChar(m % 10), '-', DigitChar(d / 10), DigitChar(d % 10)];
    assert c == [DigitChar(0), DigitChar(8), '-', DigitChar(0), DigitChar(6)];
    DigitOrder(m / 10, 0);
    if m / 10 == 0 {
      StrLessTail(t, c);
      DigitOrder(m % 10, 8);
      if m == 8 {
        StrLessTail(t[1..], c[1..]);
        StrLessTail(t[2..], c[2..]);
        DigitOrder(d / 10, 0);
        if d / 10 == 0 {
          StrLessTail(t[3..], c[3..]);
          DigitOrder(d % 10, 6);
        }
      }
    }
  }

  /** A four-digit year is written with four characters. */
  lemma FourDigits(n: int)
    requires 1000 <= n <= 9999
    ensures |IntText(n)| == 4
  {
    assert 1 <= n / 10 / 10 / 10 <= 9;
    assert |Digits(n / 10 / 10 / 10)| == 1;
    assert |Digits(n / 10 / 10)| == 2;
    assert |Digits(n / 10)| == 3;
    assert |Digits(n)| == 4;
  }

  /** "AY " + y1 + "/" + y2 for four-character y1 and y2, and its two cuts. */
  lemma LabelCuts(y1: string, y2: string)
    requires |y1| == 4 && |y2| == 4
    ensures ApiKey("AY " + y1 + "/" + y2) == y1 + "-" + y2
    ensures StoredLabel(y1 + "-" + y2) == y1 + "/" + y2
    ensures From("AY " + y1 + "/" + y2, 3) == y1 + "/" + y2
  {
    var opt := "AY " + y1 + "/" + y2;
    assert opt[3..7] == y1;
    assert opt[8..] == y2;
    assert opt[3..] == y1 + "/" + y2;
    var key := y1 + "-" + y2;
    assert key[..4] == y1;
    assert key[5..] == y2;
  }

  lemma LabelRunAt(first: int, n: nat, k: int)
    requires 0 <= k < n
    ensures LabelRun(first, n)[k] == OptionLabel(first + k)
  {
  }

  /** One option per academic year since 2018/2019. */
  lemma OptionCount(year: int, mthDay: string)
    requires 2019 <= year
    ensures |Options(year, mthDay)| == (if BeforeCutoff(mthDay) then year - 2018 else year - 2017)
  {
  }

  /** Before the cutoff, the option for yr is "AY (yr-1)/yr", the k-th being for yr = 2019 + k. */
  lemma OptionAtBefore(year: int, mthDay: string, k: int)
    requires 0 <= k < year - 2018
    requires BeforeCutoff(mthDay)
    ensures Options(year, mthDay)[k] == OptionLabel(2018 + k)
  {
    LabelRunAt(2019 - 1, year - 2018, k);
  }

  /** From the cutoff on, the option for yr is "AY yr/(yr+1)", the k-th being for yr = 2018 + k. */
  lemma OptionAtAfter(year: int, mthDay: string, k: int)
    requires 0 <= k < year - 2017
    requires !BeforeCutoff(mthDay)
    ensures Options(year, mthDay)[k] == OptionLabel(2018 + k)
  {
    LabelRunAt(2018, year - 2017, k);
  }

  /**
   * On both sides of the cutoff, the k-th option is "AY y/(y+1)" for
   * y = 2018 + k, and there is one option per academic year since 2018/2019.
   */
  lemma OptionAt(year: int, mthDay: string, k: int)
    requires 2019 <= year
    requires 0 <= k < |Options(year, mthDay)|
    ensures |Options(year, mthDay)| == (if BeforeCutoff(mthDay) then year - 2018 else year - 2017)
    ensures Options(year, mthDay)[k] == OptionLabel(2018 + k)
  {
    OptionCount(year, mthDay);
    if BeforeCutoff(mthDay) {
      OptionAtBefore(year, mthDay, k);
    } else {
      OptionAtAfter(year, mthDay, k);
    }
  }

  /** The cuts of the option for a four-digit year y. */
  lemma OptionLabelCuts(y: int)
    requires 1000 <= y <= 9998
    ensures ApiKey(OptionLabel(y)) == YearKey(y)
    ensures StoredLabel(ApiKey(OptionLabel(y))) == From(OptionLabel(y), 3)
  {
    FourDigits(y);
    FourDigits(y + 1);
    LabelCuts(IntText(y), IntText(y + 1));
  }

  /**
   * The academic-year round trip: the key cut from any option is
   * "y-(y+1)", the label rebuilt from it is the option without "AY ", and so
   * it is one of the categories of the "AY Taken" column.
   */
  lemma AyRoundTrip(year: int, mthDay: string, k: int)
    requires 2019 <= year <= 9998
    requires 0 <= k < |Options(year, mthDay)|
    ensures ApiKey(Options(year, mthDay)[k]) == YearKey(2018 + k)
    ensures StoredLabel(ApiKey(Options(year, mthDay)[k])) == From(Options(year, mthDay)[k], 3)
    ensures StoredLabel(ApiKey(Options(year, mthDay)[k])) in AllAY(Options(year, mthDay))
  {
    var opts := Options(year, mthDay);
    OptionAt(year, mthDay, k);
    OptionLabelCuts(2018 + k);
    assert AllAY(opts)[k] == From(opts[k], 3);
  }

  /** Before the cutoff, the latest key is the key of the last option. */
  lemma LatestKeyBefore(year: int, mthDay: string)
    requires 2019 <= year <= 9998
    requires BeforeCutoff(mthDay)
    ensures |Options(year, mthDay)| == year - 2018
    ensures LatestKey(year, mthDay) == ApiKey(DefaultOption(Options(year, mthDay)))
  {
    var k := year - 2019;
    OptionCount(year, mthDay);
    OptionAtBefore(year, mthDay, k);
    OptionLabelCuts(2018 + k);
  }

  /** From the cutoff on, the latest key is the key of the last option. */
  lemma LatestKeyAfter(year: int, mthDay: string)
    requires 2019 <= year <= 9998
    requires !BeforeCutoff(mthDay)
    ensures |Options(year, mthDay)| == year - 2017
    ensures LatestKey(year, mthDay) == ApiKey(DefaultOption(Options(year, mthDay)))
  {
    var k := year - 2018;
    OptionCount(year, mthDay);
    OptionAtAfter(year, mthDay, k);
    OptionLabelCuts(2018 + k);
  }

  /**
   * The forecast's latest key is the key of the tracker's default option, on
   * both sides of the cutoff.
   */
  lemma LatestKeyIsDefaultKey(year: int, mthDay: string)
    requires 2019 <= year <= 9998
    ensures Options(year, mthDay) != []
    ensures LatestKey(year, mthDay) == ApiKey(DefaultOption(Options(year, mthDay)))
  {
    if BeforeCutoff(mthDay) {
      LatestKeyBefore(year, mthDay);
    } else {
      LatestKeyAfter(year, mthDay);
    }
  }
}
