/**
 UTC timestamps in their texts (RFC 3339, section 5.6, and the compact form used
 in file names), when comparing texts compares times, and when a text reads
 back. Whether a year below 1000 is padded to four digits depends on the
 platform, so it is a parameter.
 */
module Timestamps {
  import opened Wrappers
  import opened TextOrder
  import opened Texts

  /** A UTC date and time to the second. */
  datatype Time = Time(year: nat, month: nat, day: nat, hour: nat, minute: nat, second: nat)

  predicate IsLeap(year: nat) {
    year % 4 == 0 && (year % 100 != 0 || year % 400 == 0)
  }

  function DaysIn(year: nat, month: nat): nat {
    if month == 2 then (if IsLeap(year) then 29 else 28)
    else if month in {4, 6, 9, 11} then 30
    else 31
  }

  predicate Valid(t: Time) {
    && 1 <= t.year <= 9999 && 1 <= t.month <= 12 && 1 <= t.day <= DaysIn(t.year, t.month)
    && t.hour < 24 && t.minute < 60 && t.second < 60
  }

  // ---- Position on the time line ----

  /** Days in the years before this one. */
  function YearStart(year: nat): nat {
    if year <= 1 then 0 else YearStart(year - 1) + 365 + (if IsLeap(year - 1) then 1 else 0)
  }

  function MonthStart(year: nat, month: nat): nat {
    if month <= 1 then 0 else MonthStart(year, month - 1) + DaysIn(year, month - 1)
  }

  function DayNumber(t: Time): nat
    requires Valid(t)
  {
    YearStart(t.year) + MonthStart(t.year, t.month) + t.day - 1
  }

  function Seconds(t: Time): nat
    requires Valid(t)
  {
    86400 * DayNumber(t) + 3600 * t.hour + 60 * t.minute + t.second
  }

  function Fields(t: Time): seq<nat> {
    [t.year, t.month, t.day, t.hour, t.minute, t.second]
  }

  /** Dictionary order, with a prefix before what extends it. */
  predicate LexLess(a: seq<nat>, b: seq<nat>) {
    b != [] && (a == [] || a[0] < b[0] || (a[0] == b[0] && LexLess(a[1..], b[1..])))
  }

  lemma {:induction false} YearsAdvance(y: nat, y': nat)
    requires 0 < y < y'
    ensures YearStart(y) + 365 + (if IsLeap(y) then 1 else 0) <= YearStart(y')
    decreases y' - y
  {
    if y + 1 < y' {
      YearsAdvance(y, y' - 1);
    }
  }

  lemma {:induction false} MonthsAdvance(year: nat, m: nat, m': nat)
    requires 1 <= m < m' <= 12
    ensures MonthStart(year, m) + DaysIn(year, m) <= MonthStart(year, m')
    decreases m' - m
  {
    if m + 1 < m' {
      MonthsAdvance(year, m, m' - 1);
    }
  }

  lemma YearLength(year: nat)
    ensures MonthStart(year, 12) + 31 == 365 + (if IsLeap(year) then 1 else 0)
  {
    assert MonthStart(year, 1) == 0 && MonthStart(year, 2) == 31;
    var leap := if IsLeap(year) then 1 else 0;
    assert MonthStart(year, 3) == 59 + leap;
    assert MonthStart(year, 4) == 90 + leap;
    assert MonthStart(year, 5) == 120 + leap;
    assert MonthStart(year, 6) == 151 + leap;
    assert MonthStart(year, 7) == 181 + leap;
    assert MonthStart(year, 8) == 212 + leap;
    assert MonthStart(year, 9) == 243 + leap;
    assert MonthStart(year, 10) == 273 + leap;
    assert MonthStart(year, 11) == 304 + leap;
  }

  lemma DateOrder(a: Time, b: Time)
    requires Valid(a) && Valid(b)
    requires a.year < b.year || (a.year == b.year && (a.month < b.month || (a.month == b.month && a.day < b.day)))
    ensures DayNumber(a) < DayNumber(b)
  {
    if a.year < b.year {
      YearsAdvance(a.year, b.year);
      YearLength(a.year);
      if a.month < 12 {
        MonthsAdvance(a.year, a.month, 12);
      }
    } else if a.month < b.month {
      MonthsAdvance(a.year, a.month, b.month);
    }
  }

  lemma EarlierFieldsEarlier(a: Time, b: Time)
    requires Valid(a) && Valid(b) && LexLess(Fields(a), Fields(b))
    ensures Seconds(a) < Seconds(b)
  {
    var da, db := [a.hour, a.minute, a.second], [b.hour, b.minute, b.second];
    LexCons(a.year, [a.month, a.day] + da, b.year, [b.month, b.day] + db);
    LexCons(a.month, [a.day] + da, b.month, [b.day] + db);
    LexCons(a.day, da, b.day, db);
    assert Fields(a) == [a.year] + ([a.month] + ([a.day] + da)) && Fields(b) == [b.year] + ([b.month] + ([b.day] + db));
    assert [a.month, a.day] + da == [a.month] + ([a.day] + da) && [b.month, b.day] + db == [b.month] + ([b.day] + db);
    if a.year == b.year && a.month == b.month && a.day == b.day {
      LexCons(a.hour, [a.minute, a.second], b.hour, [b.minute, b.second]);
      LexCons(a.minute, [a.second], b.minute, [b.second]);
      LexCons(a.second, [], b.second, []);
      assert da == [a.hour] + ([a.minute] + ([a.second] + [])) && db == [b.hour] + ([b.minute] + ([b.second] + []));
    } else {
      DateOrder(a, b);
    }
  }

  lemma LexCons(x: nat, a: seq<nat>, y: nat, b: seq<nat>)
    ensures LexLess([x] + a, [y] + b) <==> x < y || (x == y && LexLess(a, b))
  {
    assert ([x] + a)[1..] == a && ([y] + b)[1..] == b;
  }

  lemma {:induction false} LexTotal(a: seq<nat>, b: seq<nat>)
    requires |a| == |b|
    ensures LexLess(a, b) || LexLess(b, a) || a == b
    ensures !(LexLess(a, b) && LexLess(b, a)) && !LexLess(a, a)
  {
    if a != [] {
      LexTotal(a[1..], b[1..]);
      LexTotal(a[1..], a[1..]);
      if a[0] == b[0] && a[1..] == b[1..] {
        assert a == [a[0]] + a[1..] && b == [b[0]] + b[1..];
      }
    }
  }

  // ---- Text ----

  /** The w lowest decimal digits. */
  function Digits(n: nat, w: nat): (s: string)
    ensures |s| == w
  {
    if w == 0 then "" else Digits(n / 10, w - 1) + [DigitOf(n % 10)]
  }

  datatype Field = Field(width: nat, suffix: string)

  function Rfc3339(yearWidth: nat): seq<Field> {
    [Field(yearWidth, "-"), Field(2, "-"), Field(2, "T"), Field(2, ":"), Field(2, ":"), Field(2, "Z")]
  }

  function Compact(yearWidth: nat): seq<Field> {
    [Field(yearWidth, ""), Field(2, ""), Field(2, "T"), Field(2, ""), Field(2, ""), Field(2, "Z")]
  }

  /** How many digits a year is printed with. */
  function YearWidth(padded: bool, t: Time): nat {
    if padded then 4 else |Print(t.year)|
  }

  function Render(values: seq<nat>, shape: seq<Field>): string
    requires |values| == |shape|
  {
    if values == [] then ""
    else Digits(values[0], shape[0].width) + shape[0].suffix + Render(values[1..], shape[1..])
  }

  predicate Fits(values: seq<nat>, shape: seq<Field>) {
    |values| == |shape| && forall i | 0 <= i < |values| :: values[i] < Pow10(shape[i].width)
  }

  function Format(padded: bool, t: Time): string {
    Render(Fields(t), Rfc3339(YearWidth(padded, t)))
  }

  function FormatCompact(padded: bool, t: Time): string {
    Render(Fields(t), Compact(YearWidth(padded, t)))
  }

  lemma {:induction false} DigitsOrder(m: nat, n: nat, w: nat)
    requires m < Pow10(w) && n < Pow10(w)
    ensures TextLess(Digits(m, w), Digits(n, w)) <==> m < n
    ensures Digits(m, w) == Digits(n, w) <==> m == n
  {
    if w > 0 {
      DigitsOrder(m / 10, n / 10, w - 1);
      TextLessConcat(Digits(m / 10, w - 1), Digits(n / 10, w - 1), [DigitOf(m % 10)], [DigitOf(n % 10)]);
      assert Digits(m, w)[..w - 1] == Digits(m / 10, w - 1) && Digits(m, w)[w - 1] == DigitOf(m % 10);
      assert Digits(n, w)[..w - 1] == Digits(n / 10, w - 1) && Digits(n, w)[w - 1] == DigitOf(n % 10);
    }
  }

  lemma {:induction false} RenderOrder(a: seq<nat>, b: seq<nat>, shape: seq<Field>)
    requires Fits(a, shape) && Fits(b, shape)
    ensures TextLess(Render(a, shape), Render(b, shape)) <==> LexLess(a, b)
    ensures |Render(a, shape)| == |Render(b, shape)|
  {
    if a != [] {
      var w, suffix := shape[0].width, shape[0].suffix;
      var ra, rb := Render(a[1..], shape[1..]), Render(b[1..], shape[1..]);
      RenderOrder(a[1..], b[1..], shape[1..]);
      DigitsOrder(a[0], b[0], w);
      assert Render(a, shape) == Digits(a[0], w) + (suffix + ra);
      assert Render(b, shape) == Digits(b[0], w) + (suffix + rb);
      TextLessConcat(Digits(a[0], w), Digits(b[0], w), suffix + ra, suffix + rb);
      TextLessConcat(suffix, suffix, ra, rb);
      TextIrreflexive(suffix);
    }
  }

  lemma ValidTimesFit(padded: bool, t: Time)
    requires Valid(t)
    ensures 1 <= |Print(t.year)| <= 4
    ensures Fits(Fields(t), Rfc3339(YearWidth(padded, t))) && Fits(Fields(t), Compact(YearWidth(padded, t)))
  {
    PrintedDigits(t.year);
    PrintedLength(t.year, |Print(t.year)|);
    PrintedLength(t.year, 4);
    assert Pow10(2) == 10 * Pow10(1) == 100;
    assert Pow10(4) == 10 * Pow10(3) == 100 * Pow10(2);
  }

  // ---- The order of texts ----

  /** Comparing either text of two times compares the times, when their years are printed equally wide. */
  lemma TextOrderIsTimeOrder(padded: bool, a: Time, b: Time)
    requires Valid(a) && Valid(b) && YearWidth(padded, a) == YearWidth(padded, b)
    ensures TextLess(Format(padded, a), Format(padded, b)) <==> Seconds(a) < Seconds(b)
    ensures TextLess(FormatCompact(padded, a), FormatCompact(padded, b)) <==> Seconds(a) < Seconds(b)
    ensures |FormatCompact(padded, a)| == |FormatCompact(padded, b)|
  {
    ValidTimesFit(padded, a);
    ValidTimesFit(padded, b);
    RenderOrder(Fields(a), Fields(b), Rfc3339(YearWidth(padded, a)));
    RenderOrder(Fields(a), Fields(b), Compact(YearWidth(padded, a)));
    LexTotal(Fields(a), Fields(b));
    if LexLess(Fields(a), Fields(b)) {
      EarlierFieldsEarlier(a, b);
    } else if LexLess(Fields(b), Fields(a)) {
      EarlierFieldsEarlier(b, a);
    }
  }

  predicate InYears(t: Time, lo: nat, hi: nat) {
    Valid(t) && lo <= t.year <= hi
  }

  /** All years of the range are printed equally wide. */
  predicate SameWidths(padded: bool, lo: nat, hi: nat) {
    padded || |Print(lo)| == |Print(hi)|
  }

  lemma WidthsInRange(padded: bool, lo: nat, hi: nat, a: Time, b: Time)
    requires SameWidths(padded, lo, hi) && InYears(a, lo, hi) && InYears(b, lo, hi)
    ensures YearWidth(padded, a) == YearWidth(padded, b)
  {
    PrintGrows(lo, a.year);
    PrintGrows(a.year, hi);
    PrintGrows(lo, b.year);
    PrintGrows(b.year, hi);
  }

  /** The first second of a year. */
  function StartOf(year: nat): Time {
    Time(year, 1, 1, 0, 0, 0)
  }

  /** A range of years of different lengths contains a year of nines and the longer one after it. */
  lemma RangeCrosses(lo: nat, hi: nat) returns (nines: nat)
    requires 1 <= lo <= hi <= 9999 && |Print(lo)| != |Print(hi)|
    ensures lo <= nines < nines + 1 <= hi && nines in {9, 99, 999}
  {
    PrintGrows(lo, hi);
    assert Pow10(1) == 10 && Pow10(2) == 100 && Pow10(3) == 10 * Pow10(2) && Pow10(4) == 10 * Pow10(3);
    forall d: nat | 1 <= d <= 4
      ensures |Print(lo)| <= d <==> lo < Pow10(d)
      ensures |Print(hi)| <= d <==> hi < Pow10(d)
    {
      PrintedLength(lo, d);
      PrintedLength(hi, d);
    }
    assert |Print(lo)| > 0 by {
      PrintedDigits(lo);
    }
    nines := if lo < 10 then 9 else if lo < 100 then 99 else 999;
    assert |Print(lo)| <= 1 <==> lo < Pow10(1);
    assert |Print(lo)| <= 2 <==> lo < Pow10(2);
    assert |Print(lo)| <= 3 <==> lo < Pow10(3);
    assert |Print(lo)| <= 4 && |Print(hi)| <= 4;
    assert |Print(hi)| <= 1 <==> hi < Pow10(1);
    assert |Print(hi)| <= 2 <==> hi < Pow10(2);
    assert |Print(hi)| <= 3 <==> hi < Pow10(3);
  }

  lemma StartsAreOrdered(year: nat, later: nat)
    requires 1 <= year < later <= 9999
    ensures Valid(StartOf(year)) && Valid(StartOf(later)) && Seconds(StartOf(year)) < Seconds(StartOf(later))
  {
    hide Seconds;
    EarlierFieldsEarlier(StartOf(year), StartOf(later));
  }

  lemma NinesAndMore(nines: nat)
    requires nines in {9, 99, 999}
    ensures Print(nines) != "" && Print(nines)[0] == '9' && Print(nines + 1) != "" && Print(nines + 1)[0] == '1'
  {
    assert Print(9) == "9" && Print(99) == "99" && Print(999) == "999";
    assert Print(10) == "10" && Print(100) == "100" && Print(1000) == "1000";
  }

  /** Where years grow by a digit and are not padded, both texts compare the wrong way round. */
  lemma LongerYearsMisorder(nines: nat)
    requires nines in {9, 99, 999}
    ensures var a, b := StartOf(nines), StartOf(nines + 1);
            && Valid(a) && Valid(b) && Seconds(a) < Seconds(b)
            && TextLess(Format(false, b), Format(false, a)) && !TextLess(Format(false, a), Format(false, b))
            && TextLess(FormatCompact(false, b), FormatCompact(false, a))
            && !TextLess(FormatCompact(false, a), FormatCompact(false, b))
  {
    hide Format, FormatCompact, Seconds, Print, Valid;
    StartsAreOrdered(nines, nines + 1);
    NinesAndMore(nines);
    FirstDigit(StartOf(nines));
    FirstDigit(StartOf(nines + 1));
  }

  lemma CrossingMisorders(padded: bool, lo: nat, hi: nat) returns (nines: nat)
    requires 1 <= lo <= hi <= 9999 && !SameWidths(padded, lo, hi)
    ensures nines in {9, 99, 999} && !padded
    ensures InYears(StartOf(nines), lo, hi) && InYears(StartOf(nines + 1), lo, hi)
    ensures Seconds(StartOf(nines)) < Seconds(StartOf(nines + 1))
    ensures !TextLess(Format(padded, StartOf(nines)), Format(padded, StartOf(nines + 1)))
  {
    hide Format, FormatCompact, Seconds, Print, TextLess;
    nines := RangeCrosses(lo, hi);
    LongerYearsMisorder(nines);
  }

  /** Comparing texts compares times. */
  ghost predicate TextsFollowTimes(padded: bool, lo: nat, hi: nat) {
    forall a, b | InYears(a, lo, hi) && InYears(b, lo, hi) ::
      && (TextLess(Format(padded, a), Format(padded, b)) <==> Seconds(a) < Seconds(b))
      && (TextLess(FormatCompact(padded, a), FormatCompact(padded, b)) <==> Seconds(a) < Seconds(b))
  }

  /**
   On the times of a range of years, comparing texts compares times if and only if
   years are padded or the first and the last year of the range have equally many
   digits.
   */
  lemma TextsFollowTimesIff(padded: bool, lo: nat, hi: nat)
    requires 1 <= lo <= hi <= 9999
    ensures TextsFollowTimes(padded, lo, hi) <==> SameWidths(padded, lo, hi)
  {
    hide Format, FormatCompact, Seconds, Print, Valid, YearWidth, SameWidths, TextLess;
    if SameWidths(padded, lo, hi) {
      forall a, b | InYears(a, lo, hi) && InYears(b, lo, hi)
        ensures TextLess(Format(padded, a), Format(padded, b)) <==> Seconds(a) < Seconds(b)
        ensures TextLess(FormatCompact(padded, a), FormatCompact(padded, b)) <==> Seconds(a) < Seconds(b)
      {
        WidthsInRange(padded, lo, hi, a, b);
        TextOrderIsTimeOrder(padded, a, b);
      }
    } else {
      var nines := CrossingMisorders(padded, lo, hi);
      assert InYears(StartOf(nines), lo, hi) && InYears(StartOf(nines + 1), lo, hi);
    }
  }

  lemma {:induction false} DigitsOfWholeNumber(n: nat)
    ensures Digits(n, |Print(n)|) == Print(n)
  {
    if n >= 10 {
      DigitsOfWholeNumber(n / 10);
    } else {
      assert Digits(n / 10, 0) + [DigitOf(n % 10)] == [DigitOf(n)];
    }
  }

  lemma RenderStarts(values: seq<nat>, shape: seq<Field>)
    requires |values| == |shape| > 0 && shape[0].width > 0
    ensures Render(values, shape) != "" && Render(values, shape)[0] == Digits(values[0], shape[0].width)[0]
  {
  }

  /** Both texts begin with the year as a number, when it is not padded. */
  lemma FirstDigit(t: Time)
    ensures Format(false, t) != "" && FormatCompact(false, t) != ""
    ensures Format(false, t)[0] == FormatCompact(false, t)[0] == Print(t.year)[0]
  {
    hide Render;
    PrintedDigits(t.year);
    DigitsOfWholeNumber(t.year);
    RenderStarts(Fields(t), Rfc3339(YearWidth(false, t)));
    RenderStarts(Fields(t), Compact(YearWidth(false, t)));
  }

  lemma DigitsStart(n: nat, w: nat)
    requires w > 0
    ensures IsDigit(Digits(n, w)[0])
  {
    if w > 1 {
      DigitsStart(n / 10, w - 1);
    }
  }

  lemma CompactStartsWithDigit(padded: bool, t: Time)
    ensures FormatCompact(padded, t) != "" && IsDigit(FormatCompact(padded, t)[0])
  {
    hide Render;
    PrintedDigits(t.year);
    RenderStarts(Fields(t), Compact(YearWidth(padded, t)));
    DigitsStart(t.year, YearWidth(padded, t));
  }

  // ---- The least text ----

  /** The least text, as the program takes the minimum of a list of deadlines. */
  function MinText(texts: seq<string>): string
    requires texts != []
  {
    if |texts| == 1 then texts[0]
    else
      var rest := MinText(texts[1..]);
      if TextLess(rest, texts[0]) then rest else texts[0]
  }

  function Formats(padded: bool, times: seq<Time>): seq<string> {
    seq(|times|, i requires 0 <= i < |times| => Format(padded, times[i]))
  }

  ghost predicate IsEarliest(times: seq<Time>, t: Time) {
    t in times && Valid(t) && forall u | u in times && Valid(u) :: Seconds(t) <= Seconds(u)
  }

  lemma EarliestOfMore(first: Time, rest: seq<Time>, t: Time)
    requires Valid(first) && IsEarliest(rest, t)
    ensures IsEarliest([first] + rest, if Seconds(t) < Seconds(first) then t else first)
  {
    assert first in [first] + rest && t in [first] + rest;
  }

  /** When all years are printed equally wide, the least text is that of an earliest time. */
  lemma {:induction false} MinTextIsEarliest(padded: bool, times: seq<Time>) returns (t: Time)
    requires times != []
    requires forall u | u in times :: Valid(u) && YearWidth(padded, u) == YearWidth(padded, times[0])
    ensures IsEarliest(times, t) && MinText(Formats(padded, times)) == Format(padded, t)
  {
    hide Format;
    if |times| == 1 {
      t := times[0];
    } else {
      var first, rest := times[0], times[1..];
      assert times == [first] + rest;
      assert Formats(padded, times)[1..] == Formats(padded, rest);
      var u := MinTextIsEarliest(padded, rest);
      TextOrderIsTimeOrder(padded, u, first);
      EarliestOfMore(first, rest, u);
      t := if Seconds(u) < Seconds(first) then u else first;
    }
  }

  ghost predicate MinimumIsEarliest(padded: bool, times: seq<Time>)
    requires times != []
  {
    exists t :: IsEarliest(times, t) && MinText(Formats(padded, times)) == Format(padded, t)
  }

  predicate AllInYears(times: seq<Time>, lo: nat, hi: nat) {
    forall t | t in times :: InYears(t, lo, hi)
  }

  /** The minimum over texts finds an earliest time of every list of times of these years. */
  ghost predicate MinimaAreEarliest(padded: bool, lo: nat, hi: nat) {
    forall times: seq<Time> | times != [] && AllInYears(times, lo, hi) :: MinimumIsEarliest(padded, times)
  }

  lemma TwoTexts(padded: bool, a: Time, b: Time)
    ensures MinText(Formats(padded, [a, b]))
         == if TextLess(Format(padded, b), Format(padded, a)) then Format(padded, b) else Format(padded, a)
  {
    hide Format, TextLess;
    var texts := Formats(padded, [a, b]);
    assert texts[1..] == [Format(padded, b)] && texts[0] == Format(padded, a);
  }

  lemma FirstStartIsEarliest(year: nat, t: Time)
    requires 1 <= year <= 9998 && IsEarliest([StartOf(year), StartOf(year + 1)], t)
    ensures t == StartOf(year)
  {
    hide Seconds, Valid;
    StartsAreOrdered(year, year + 1);
    assert StartOf(year) in [StartOf(year), StartOf(year + 1)];
  }

  /** Two times at which the least text is not that of an earliest one. */
  lemma LongerYearsMislead(nines: nat)
    requires nines in {9, 99, 999}
    ensures !MinimumIsEarliest(false, [StartOf(nines), StartOf(nines + 1)])
  {
    hide Format, FormatCompact, MinText, Seconds, TextLess, Valid, IsEarliest;
    var a, b := StartOf(nines), StartOf(nines + 1);
    LongerYearsMisorder(nines);
    TwoTexts(false, a, b);
    TextIrreflexive(Format(false, a));
    forall t | IsEarliest([a, b], t)
      ensures MinText(Formats(false, [a, b])) != Format(false, t)
    {
      FirstStartIsEarliest(nines, t);
    }
  }

  lemma MinimumOfRange(padded: bool, lo: nat, hi: nat, times: seq<Time>)
    requires SameWidths(padded, lo, hi) && times != [] && AllInYears(times, lo, hi)
    ensures MinimumIsEarliest(padded, times)
  {
    hide Format, Formats, MinText, YearWidth, IsEarliest, SameWidths;
    forall u | u in times
      ensures Valid(u) && YearWidth(padded, u) == YearWidth(padded, times[0])
    {
      WidthsInRange(padded, lo, hi, u, times[0]);
    }
    var t := MinTextIsEarliest(padded, times);
  }

  /** The least text is that of an earliest time, on a range of years, exactly when texts follow times there. */
  lemma MinimaAreEarliestIff(padded: bool, lo: nat, hi: nat)
    requires 1 <= lo <= hi <= 9999
    ensures MinimaAreEarliest(padded, lo, hi) <==> SameWidths(padded, lo, hi)
  {
    hide Format, Formats, MinText, IsEarliest, InYears, SameWidths, MinimumIsEarliest;
    if SameWidths(padded, lo, hi) {
      forall times: seq<Time> | times != [] && AllInYears(times, lo, hi)
        ensures MinimumIsEarliest(padded, times)
      {
        MinimumOfRange(padded, lo, hi, times);
      }
    } else {
      var nines := CrossingMisorders(padded, lo, hi);
      LongerYearsMislead(nines);
      assert AllInYears([StartOf(nines), StartOf(nines + 1)], lo, hi);
    }
  }

  // ---- Reading a text back ----

  predicate AreDigits(s: string) {
    forall c | c in s :: IsDigit(c)
  }

  /** Four digits, five times two digits, and the marks between them. */
  predicate HasPattern(s: string) {
    && |s| == 20 && s[4] == '-' && s[7] == '-' && s[10] == 'T' && s[13] == ':' && s[16] == ':' && s[19] == 'Z'
    && AreDigits(s[..4]) && AreDigits(s[5..7]) && AreDigits(s[8..10]) && AreDigits(s[11..13])
    && AreDigits(s[14..16]) && AreDigits(s[17..19])
  }

  /** A text with the pattern and the fields of a valid time. */
  function ReadTime(s: string): Option<Time> {
    if !HasPattern(s) then None
    else
      var t := Time(ValueOf(s[..4]), ValueOf(s[5..7]), ValueOf(s[8..10]), ValueOf(s[11..13]), ValueOf(s[14..16]),
                    ValueOf(s[17..19]));
      if Valid(t) then Some(t) else None
  }

  lemma {:induction false} DigitsReadBack(n: nat, w: nat)
    requires n < Pow10(w)
    ensures AreDigits(Digits(n, w)) && ValueOf(Digits(n, w)) == n
  {
    if w > 0 {
      DigitsReadBack(n / 10, w - 1);
      assert Digits(n, w)[..w - 1] == Digits(n / 10, w - 1);
    }
  }

  /** What follows the year, the month, the day, the hour and the minute. */
  datatype Rests = Rests(month: string, day: string, hour: string, minute: string, second: string)

  predicate AreRests(s: string, parts: seq<string>, r: Rests) {
    && |parts| == 6 && |parts[0]| == 4 && (forall i | 1 <= i < 6 :: |parts[i]| == 2)
    && s == parts[0] + "-" + r.month && r.month == parts[1] + "-" + r.day && r.day == parts[2] + "T" + r.hour
    && r.hour == parts[3] + ":" + r.minute && r.minute == parts[4] + ":" + r.second && r.second == parts[5] + "Z" + ""
  }

  /** The printed fields of a time, and what follows each in its text. */
  lemma FormatParts(padded: bool, t: Time) returns (parts: seq<string>, r: Rests)
    ensures parts == [Digits(t.year, YearWidth(padded, t)), Digits(t.month, 2), Digits(t.day, 2), Digits(t.hour, 2),
                      Digits(t.minute, 2), Digits(t.second, 2)]
    ensures YearWidth(padded, t) == 4 ==> AreRests(Format(padded, t), parts, r)
    ensures |Format(padded, t)| == YearWidth(padded, t) + 16
  {
    hide Digits, YearWidth, Render;
    var v, f := Fields(t), Rfc3339(YearWidth(padded, t));
    parts := [Digits(t.year, YearWidth(padded, t)), Digits(t.month, 2), Digits(t.day, 2), Digits(t.hour, 2),
              Digits(t.minute, 2), Digits(t.second, 2)];
    r := Rests(Render(v[1..], f[1..]), Render(v[2..], f[2..]), Render(v[3..], f[3..]), Render(v[4..], f[4..]),
               Render(v[5..], f[5..]));
    RenderStep(v, f, 0);
    RenderStep(v, f, 1);
    RenderStep(v, f, 2);
    RenderStep(v, f, 3);
    RenderStep(v, f, 4);
    RenderStep(v, f, 5);
    RenderNothing(v[6..], f[6..]);
  }

  lemma RenderStep(values: seq<nat>, shape: seq<Field>, i: nat)
    requires i < |values| == |shape|
    ensures Render(values[i..], shape[i..])
         == Digits(values[i], shape[i].width) + shape[i].suffix + Render(values[i + 1..], shape[i + 1..])
  {
    assert values[i..][1..] == values[i + 1..] && shape[i..][1..] == shape[i + 1..];
  }

  lemma RenderNothing(values: seq<nat>, shape: seq<Field>)
    requires |values| == |shape| == 0
    ensures Render(values, shape) == ""
  {
  }

  /** A printed date has four digits in its year. */
  predicate HasFourDigits(padded: bool, t: Time) {
    padded || t.year >= 1000
  }

  lemma FieldAt(s: string, at: nat, part: string, mark: string, rest: string)
    requires at <= |s| && s[at..] == part + mark + rest && |mark| == 1
    ensures at + |part| + 1 <= |s|
    ensures s[at..at + |part|] == part && s[at + |part|] == mark[0] && s[at + |part| + 1..] == rest
  {
    var after := part + mark + rest;
    assert s[at..at + |part|] == after[..|part|] == part;
    assert s[at + |part|] == after[|part|];
    assert s[at + |part| + 1..] == after[|part| + 1..] == rest;
  }

  lemma PartsInPlace(s: string, parts: seq<string>, r: Rests)
    requires AreRests(s, parts, r)
    ensures |s| == 20 && s[4] == '-' && s[7] == '-' && s[10] == 'T' && s[13] == ':' && s[16] == ':' && s[19] == 'Z'
    ensures s[..4] == parts[0] && s[5..7] == parts[1] && s[8..10] == parts[2] && s[11..13] == parts[3]
    ensures s[14..16] == parts[4] && s[17..19] == parts[5]
  {
    assert s[0..] == s;
    FieldAt(s, 0, parts[0], "-", r.month);
    FieldAt(s, 5, parts[1], "-", r.day);
    FieldAt(s, 8, parts[2], "T", r.hour);
    FieldAt(s, 11, parts[3], ":", r.minute);
    FieldAt(s, 14, parts[4], ":", r.second);
    FieldAt(s, 17, parts[5], "Z", "");
    assert s[0..4] == s[..4];
  }

  /** A printed time reads back as itself exactly when its year has four digits, and otherwise not at all. */
  lemma TimeReadsBackIff(padded: bool, t: Time)
    requires Valid(t)
    ensures ReadTime(Format(padded, t)) == if HasFourDigits(padded, t) then Some(t) else None
  {
    hide Format, Digits, Pow10, Valid, ValueOf, AreDigits, AreRests;
    var parts, rests := FormatParts(padded, t);
    FourDigitWidth(padded, t);
    if HasFourDigits(padded, t) {
      FieldsReadBack(t);
      PartsInPlace(Format(padded, t), parts, rests);
    }
  }

  lemma FourDigitWidth(padded: bool, t: Time)
    requires Valid(t)
    ensures YearWidth(padded, t) <= 4
    ensures YearWidth(padded, t) == 4 <==> HasFourDigits(padded, t)
  {
    FourDigitsIff(t.year);
  }

  lemma FourDigitsIff(year: nat)
    requires 1 <= year <= 9999
    ensures |Print(year)| == 4 <==> year >= 1000
    ensures |Print(year)| <= 4
  {
    PrintedLength(year, 3);
    PrintedLength(year, 4);
    assert Pow10(2) == 100 && Pow10(3) == 10 * Pow10(2) && Pow10(4) == 10 * Pow10(3);
  }

  lemma FieldsReadBack(t: Time)
    requires Valid(t)
    ensures AreDigits(Digits(t.year, 4)) && ValueOf(Digits(t.year, 4)) == t.year
    ensures AreDigits(Digits(t.month, 2)) && ValueOf(Digits(t.month, 2)) == t.month
    ensures AreDigits(Digits(t.day, 2)) && ValueOf(Digits(t.day, 2)) == t.day
    ensures AreDigits(Digits(t.hour, 2)) && ValueOf(Digits(t.hour, 2)) == t.hour
    ensures AreDigits(Digits(t.minute, 2)) && ValueOf(Digits(t.minute, 2)) == t.minute
    ensures AreDigits(Digits(t.second, 2)) && ValueOf(Digits(t.second, 2)) == t.second
  {
    hide Digits;
    assert Pow10(1) == 10 && Pow10(2) == 100 && Pow10(3) == 10 * Pow10(2) && Pow10(4) == 10 * Pow10(3);
    DigitsReadBack(t.year, 4);
    DigitsReadBack(t.month, 2);
    DigitsReadBack(t.day, 2);
    DigitsReadBack(t.hour, 2);
    DigitsReadBack(t.minute, 2);
    DigitsReadBack(t.second, 2);
  }

  /** The first second of the year 1000; instants count seconds from the start of the year 1. */
  const FIRST_READABLE := 31_525_372_800

  /** Whether the text of an instant reads back. */
  predicate ReadsBack(padded: bool, instant: int) {
    padded || instant >= FIRST_READABLE
  }

  lemma ReadsBackIff(padded: bool, t: Time)
    requires Valid(t)
    ensures ReadTime(Format(padded, t)).Some? <==> ReadsBack(padded, Seconds(t))
  {
    hide Format, ReadTime, Seconds;
    TimeReadsBackIff(padded, t);
    ReadableFromStart(t);
  }

  /** Leap years up to this one. */
  function LeapYears(year: nat): int {
    year / 4 - year / 100 + year / 400
  }

  lemma QuotientStep(m: nat, k: nat)
    requires m >= 1 && k in {4, 100, 400}
    ensures m / k == (m - 1) / k + (if m % k == 0 then 1 else 0)
  {
  }

  lemma LeapYearsStep(m: nat)
    requires m >= 1
    ensures LeapYears(m) == LeapYears(m - 1) + (if IsLeap(m) then 1 else 0)
  {
    QuotientStep(m, 4);
    QuotientStep(m, 100);
    QuotientStep(m, 400);
    assert m % 400 == 0 ==> m == 400 * (m / 400);
    assert m % 100 == 0 ==> m == 100 * (m / 100);
  }

  lemma {:induction false} DaysBefore(year: nat)
    requires year >= 1
    ensures YearStart(year) == 365 * (year - 1) + LeapYears(year - 1)
  {
    hide LeapYears, IsLeap;
    if year > 1 {
      DaysBefore(year - 1);
      LeapYearsStep(year - 1);
    } else {
      NoLeapYears();
    }
  }

  lemma NoLeapYears()
    ensures LeapYears(0) == 0
  {
  }

  lemma ReadableFromStart(t: Time)
    requires Valid(t)
    ensures Seconds(t) >= FIRST_READABLE <==> t.year >= 1000
  {
    hide YearStart;
    DaysBefore(1000);
    var start := StartOf(1000);
    assert MonthStart(1000, 1) == 0;
    assert DayNumber(start) == 364877;
    if t.year < 1000 {
      DateOrder(t, start);
    } else if t.year > 1000 {
      DateOrder(start, t);
    }
  }
}
