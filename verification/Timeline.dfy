/**
 * `packages/protocol/src/format-timeline.ts`: the label beside an entry of the history strip.
 *
 * A `Moment` carries both what the clock says in milliseconds and what the local calendar shows. Nothing is
 * assumed about how the two are related, so the results hold in every time zone.
 */
module Timeline {
  import opened Text
  import opened Calendar

  datatype TimelineLocale = ZhCN | En

  datatype Moment = Moment(ms: int, date: CivilDate, hour: nat, minute: nat, second: nat) {
    predicate Valid() {
      date.Valid() && hour < 24 && minute < 60 && second < 60
    }
  }

  /** What arrives as `iso`: not a string at all, a string no date can be read from, or a date. */
  datatype Stamp = NotAString | Unreadable(text: string) | Readable(moment: Moment)

  function PadStart(s: string): string
    decreases 2 - |s|
  {
    if |s| < 2 then PadStart("0" + s) else s
  }

  function Pad2(n: nat): string {
    PadStart(ToDecimal(n))
  }

  function PrintYear(year: int): string {
    if year < 0 then "-" + ToDecimal(-year) else ToDecimal(year)
  }

  function HourMinute(m: Moment): string {
    Pad2(m.hour) + ":" + Pad2(m.minute)
  }

  function Clock(m: Moment): string {
    HourMinute(m) + ":" + Pad2(m.second)
  }

  function MonthDay(m: Moment): string
    requires m.Valid()
  {
    Pad2(m.date.month) + "-" + Pad2(m.date.day) + " "
  }

  function JustNow(locale: TimelineLocale): string {
    if locale.ZhCN? then "\U{521A}\U{521A}" else "Just now"
  }

  function YesterdayWord(locale: TimelineLocale): string {
    if locale.ZhCN? then "\U{6628}\U{5929}" else "Yesterday"
  }

  function LabelOf(d: Moment, now: Moment, locale: TimelineLocale): string
    requires d.Valid() && now.Valid()
  {
    if 0 <= now.ms - d.ms < 60_000 then JustNow(locale)
    else if d.date == now.date then Clock(d)
    else if d.date == SetDate(now.date, now.date.day - 1) then YesterdayWord(locale) + " " + HourMinute(d)
    else if d.date.year == now.date.year then MonthDay(d) + Clock(d)
    else PrintYear(d.date.year) + "-" + MonthDay(d) + Clock(d)
  }

  /** What cannot be read is cut to the length of a date and a time, and never refused. */
  function FormatTimelineLabel(stamp: Stamp, now: Moment, locale: TimelineLocale): (text: string)
    requires now.Valid() && (stamp.Readable? ==> stamp.moment.Valid())
    ensures stamp.NotAString? ==> text == ""
    ensures stamp.Unreadable? ==> text <= stamp.text && |text| <= |"YYYY-MM-DDTHH:MM:SS"|
                                  && (text == stamp.text || |text| == |"YYYY-MM-DDTHH:MM:SS"|)
  {
    match stamp
    case NotAString => ""
    case Unreadable(raw) => if |raw| <= 19 then raw else raw[..19]
    case Readable(d) => LabelOf(d, now, locale)
  }

  // ----- what the calendar says about an entry, and what a reader can tell from its label -----

  datatype Row = LastMinute | Today | Yesterday | ThisYear | AnotherYear

  function RowOf(d: Moment, now: Moment): Row
    requires d.Valid() && now.Valid()
  {
    if 0 <= now.ms - d.ms < 60_000 then LastMinute
    else if NumberOf(d.date) == NumberOf(now.date) then Today
    else if NumberOf(d.date) == NumberOf(now.date) - 1 then Yesterday
    else if DayFromYear(now.date.year) <= NumberOf(d.date) < DayFromYear(now.date.year + 1) then ThisYear
    else AnotherYear
  }

  /** The row as it can be told from the text of the label alone. */
  function RowReadFrom(text: string, locale: TimelineLocale): Row {
    if text == JustNow(locale) then LastMinute
    else if YesterdayWord(locale) <= text then Yesterday
    else if |text| == 8 then Today
    else if |text| == 14 then ThisYear
    else AnotherYear
  }

  lemma Pad2IsTwoDigits(n: nat)
    requires n < 100
    ensures Pad2(n) == [Digit(n / 10), Digit(n % 10)]
  {
    if n >= 10 {
      assert ToDecimal(n / 10) == [Digit(n / 10)];
    } else {
      assert PadStart("0" + [Digit(n)]) == "0" + [Digit(n)];
    }
  }

  /** Clock readings have a fixed width and can be read back. */
  lemma ClockIsReadable(m: Moment)
    requires m.Valid()
    ensures HourMinute(m) == [Digit(m.hour / 10), Digit(m.hour % 10), ':', Digit(m.minute / 10), Digit(m.minute % 10)]
    ensures Clock(m) == HourMinute(m) + [':', Digit(m.second / 10), Digit(m.second % 10)]
    ensures |HourMinute(m)| == 5 && |Clock(m)| == 8
  {
    Pad2IsTwoDigits(m.hour);
    Pad2IsTwoDigits(m.minute);
    Pad2IsTwoDigits(m.second);
  }

  lemma MonthDayIsReadable(m: Moment)
    requires m.Valid()
    ensures MonthDay(m) == [Digit(m.date.month / 10), Digit(m.date.month % 10), '-',
                            Digit(m.date.day / 10), Digit(m.date.day % 10), ' ']
  {
    assert m.date.day < 100;
    Pad2IsTwoDigits(m.date.month);
    Pad2IsTwoDigits(m.date.day);
  }

  /** Years are printed as they are counted, with a sign where they need one and no padding. */
  lemma YearIsReadable(year: int)
    ensures var text := PrintYear(year);
            && text != "" && (year < 0 <==> text[0] == '-')
            && var digits := if year < 0 then text[1..] else text;
               && AllDigits(digits) && FromDecimal(digits) == (if year < 0 then -year else year)
               && (year != 0 ==> digits != "" && digits[0] != '0')
  {
    var size: nat := if year < 0 then -year else year;
    DecimalRoundTrip(size);
    if year != 0 {
      NoLeadingZero(size);
    }
    assert year < 0 ==> PrintYear(year)[1..] == ToDecimal(-year);
  }

  /** Which branch of the code is taken, in terms of day numbers: "yesterday" is the previous calendar day. */
  lemma BranchesFollowTheCalendar(d: Moment, now: Moment, locale: TimelineLocale)
    requires d.Valid() && now.Valid()
    ensures LabelOf(d, now, locale) ==
            match RowOf(d, now)
            case LastMinute => if locale == En then "Just now" else "\U{521A}\U{521A}"
            case Today => Clock(d)
            case Yesterday => (if locale == En then "Yesterday" else "\U{6628}\U{5929}") + " " + HourMinute(d)
            case ThisYear => MonthDay(d) + Clock(d)
            case AnotherYear => PrintYear(d.date.year) + "-" + MonthDay(d) + Clock(d)
  {
    ComparisonsFollowTheCalendar(d.date, now.date);
  }

  /** The code compares year, month and day fields; the calendar compares day numbers. */
  lemma ComparisonsFollowTheCalendar(d: CivilDate, today: CivilDate)
    requires d.Valid() && today.Valid()
    ensures d == today <==> NumberOf(d) == NumberOf(today)
    ensures d == SetDate(today, today.day - 1) <==> NumberOf(d) == NumberOf(today) - 1
    ensures d.year == today.year <==> DayFromYear(today.year) <= NumberOf(d) < DayFromYear(today.year + 1)
  {
    NumbersFollowTheCalendar(d, today);
    SetDateBackTurnsThePage(today);
    PreviousPageIsOneLess(today);
    NumbersFollowTheCalendar(d, PreviousPage(today));
    SameYearIff(d, today.year);
  }

  lemma SameYearIff(d: CivilDate, year: int)
    requires d.Valid()
    ensures d.year == year <==> DayFromYear(year) <= NumberOf(d) < DayFromYear(year + 1)
  {
    DateIsInItsYear(d);
    if d.year < year {
      YearsIncrease(d.year + 1, year);
    } else if d.year > year {
      YearsIncrease(year + 1, d.year);
    }
  }

  /** No two kinds of label can be confused: the text alone tells which one it is. */
  lemma LabelTellsTheRow(d: Moment, now: Moment, locale: TimelineLocale)
    requires d.Valid() && now.Valid()
    ensures RowReadFrom(LabelOf(d, now, locale), locale) == RowOf(d, now)
  {
    BranchesFollowTheCalendar(d, now, locale);
    ShapesOfLabels(d, locale);
  }

  /** How each kind of label begins and how long it is. */
  lemma ShapesOfLabels(d: Moment, locale: TimelineLocale)
    requires d.Valid()
    ensures |Clock(d)| == 8 && StartsLikeANumber(Clock(d))
    ensures |MonthDay(d) + Clock(d)| == 14 && StartsLikeANumber(MonthDay(d) + Clock(d))
    ensures |PrintYear(d.date.year) + "-" + MonthDay(d) + Clock(d)| >= 16
    ensures StartsLikeANumber(PrintYear(d.date.year) + "-" + MonthDay(d) + Clock(d))
    ensures |YesterdayWord(locale) + " " + HourMinute(d)| >= 8
    ensures YesterdayWord(locale) + " " + HourMinute(d) != JustNow(locale)
    ensures forall text :: StartsLikeANumber(text) ==> text != JustNow(locale) && !(YesterdayWord(locale) <= text)
  {
    ClockIsReadable(d);
    MonthDayIsReadable(d);
    assert (MonthDay(d) + Clock(d))[0] == MonthDay(d)[0];
    assert (PrintYear(d.date.year) + "-" + MonthDay(d) + Clock(d))[0] == PrintYear(d.date.year)[0];
    assert (YesterdayWord(locale) + " " + HourMinute(d))[0] == YesterdayWord(locale)[0] != JustNow(locale)[0];
  }

  predicate StartsLikeANumber(text: string) {
    text != "" && (IsDigit(text[0]) || text[0] == '-')
  }

  /** An entry is labelled "Yesterday" iff it is on the day before today and not within the last minute. */
  lemma YesterdayIff(d: Moment, now: Moment, locale: TimelineLocale)
    requires d.Valid() && now.Valid()
    ensures YesterdayWord(locale) <= FormatTimelineLabel(Readable(d), now, locale)
            <==> d.date == PreviousPage(now.date) && !(0 <= now.ms - d.ms < 60_000)
  {
    var text := LabelOf(d, now, locale);
    LabelTellsTheRow(d, now, locale);
    YesterdayIsOneBack(d, now);
    assert YesterdayWord(locale) <= text <==> RowReadFrom(text, locale) == Yesterday by {
      assert JustNow(locale)[0] != YesterdayWord(locale)[0];
    }
  }

  lemma YesterdayIsOneBack(d: Moment, now: Moment)
    requires d.Valid() && now.Valid()
    ensures RowOf(d, now) == Yesterday <==> d.date == PreviousPage(now.date) && !(0 <= now.ms - d.ms < 60_000)
  {
    PreviousPageIsOneLess(now.date);
    NumbersFollowTheCalendar(d.date, PreviousPage(now.date));
  }

  lemma DigitsOfPair(a: nat, b: nat)
    requires a < 100 && b < 100
    requires Digit(a / 10) == Digit(b / 10) && Digit(a % 10) == Digit(b % 10)
    ensures a == b
  {
    assert a / 10 == b / 10 && a % 10 == b % 10;
  }

  lemma HourMinuteIsInjective(a: Moment, b: Moment)
    requires a.Valid() && b.Valid() && HourMinute(a) == HourMinute(b)
    ensures a.hour == b.hour && a.minute == b.minute
  {
    ClockIsReadable(a);
    ClockIsReadable(b);
    var x, y := HourMinute(a), HourMinute(b);
    assert x[0] == y[0] && x[1] == y[1] && x[3] == y[3] && x[4] == y[4];
    DigitsOfPair(a.hour, b.hour);
    DigitsOfPair(a.minute, b.minute);
  }

  lemma ClockIsInjective(a: Moment, b: Moment)
    requires a.Valid() && b.Valid() && Clock(a) == Clock(b)
    ensures a.hour == b.hour && a.minute == b.minute && a.second == b.second
  {
    ClockIsReadable(a);
    ClockIsReadable(b);
    assert HourMinute(a) == Clock(a)[..5] && HourMinute(b) == Clock(b)[..5];
    HourMinuteIsInjective(a, b);
    assert Clock(a)[6] == Clock(b)[6] && Clock(a)[7] == Clock(b)[7];
    DigitsOfPair(a.second, b.second);
  }

  lemma MonthDayIsInjective(a: Moment, b: Moment)
    requires a.Valid() && b.Valid() && MonthDay(a) == MonthDay(b)
    ensures a.date.month == b.date.month && a.date.day == b.date.day
  {
    MonthDayIsReadable(a);
    MonthDayIsReadable(b);
    var x, y := MonthDay(a), MonthDay(b);
    assert x[0] == y[0] && x[1] == y[1] && x[3] == y[3] && x[4] == y[4];
    DigitsOfPair(a.date.month, b.date.month);
    DigitsOfPair(a.date.day, b.date.day);
  }

  lemma PrintYearIsInjective(a: int, b: int)
    requires PrintYear(a) == PrintYear(b)
    ensures a == b
  {
    DecimalRoundTrip(if a < 0 then -a else a);
    DecimalRoundTrip(if b < 0 then -b else b);
    assert (a < 0) == (PrintYear(a)[0] == '-');
    assert (b < 0) == (PrintYear(b)[0] == '-');
    if a < 0 {
      assert PrintYear(a)[1..] == ToDecimal(-a);
      assert PrintYear(b)[1..] == ToDecimal(-b);
    }
  }

  /** Two texts of which the last `k` characters are set apart agree in both parts. */
  lemma SplitTail(x: string, y: string, u: string, v: string)
    requires x + u == y + v && |u| == |v|
    ensures x == y && u == v
  {
    assert x == (x + u)[..|x|] && y == (y + v)[..|y|];
    assert u == (x + u)[|x|..] && v == (y + v)[|y|..];
  }

  lemma DatedLabelIsInjective(a: Moment, b: Moment)
    requires a.Valid() && b.Valid() && MonthDay(a) + Clock(a) == MonthDay(b) + Clock(b)
    ensures a.date.month == b.date.month && a.date.day == b.date.day
    ensures a.hour == b.hour && a.minute == b.minute && a.second == b.second
  {
    ClockIsReadable(a);
    ClockIsReadable(b);
    SplitTail(MonthDay(a), MonthDay(b), Clock(a), Clock(b));
    ClockIsInjective(a, b);
    MonthDayIsInjective(a, b);
  }

  lemma FullLabelIsInjective(a: Moment, b: Moment)
    requires a.Valid() && b.Valid()
    requires PrintYear(a.date.year) + "-" + MonthDay(a) + Clock(a) == PrintYear(b.date.year) + "-" + MonthDay(b) + Clock(b)
    ensures a.date == b.date && a.hour == b.hour && a.minute == b.minute && a.second == b.second
  {
    ClockIsReadable(a);
    ClockIsReadable(b);
    MonthDayIsReadable(a);
    MonthDayIsReadable(b);
    var x, y := PrintYear(a.date.year) + "-", PrintYear(b.date.year) + "-";
    assert x + MonthDay(a) + Clock(a) == x + (MonthDay(a) + Clock(a));
    assert y + MonthDay(b) + Clock(b) == y + (MonthDay(b) + Clock(b));
    SplitTail(x, y, MonthDay(a) + Clock(a), MonthDay(b) + Clock(b));
    DatedLabelIsInjective(a, b);
    SplitTail(PrintYear(a.date.year), PrintYear(b.date.year), "-", "-");
    PrintYearIsInjective(a.date.year, b.date.year);
  }

  /**
   * With the clock and the locale fixed, two entries share a label only if they fall in the same second, or
   * in the same minute of yesterday, or both within the last minute.
   */
  lemma SameLabelSameSecond(a: Moment, b: Moment, now: Moment, locale: TimelineLocale)
    requires a.Valid() && b.Valid() && now.Valid()
    requires FormatTimelineLabel(Readable(a), now, locale) == FormatTimelineLabel(Readable(b), now, locale)
    ensures RowOf(a, now) == RowOf(b, now)
    ensures !RowOf(a, now).LastMinute? ==> a.date == b.date && a.hour == b.hour && a.minute == b.minute
    ensures !RowOf(a, now).LastMinute? && !RowOf(a, now).Yesterday? ==> a.second == b.second
  {
    LabelTellsTheRow(a, now, locale);
    LabelTellsTheRow(b, now, locale);
    BranchesFollowTheCalendar(a, now, locale);
    BranchesFollowTheCalendar(b, now, locale);
    match RowOf(a, now)
    case LastMinute =>
    case Today =>
      ClockIsInjective(a, b);
      NumbersFollowTheCalendar(a.date, b.date);
    case Yesterday =>
      ClockIsReadable(a);
      ClockIsReadable(b);
      SplitTail(YesterdayWord(locale) + " ", YesterdayWord(locale) + " ", HourMinute(a), HourMinute(b));
      HourMinuteIsInjective(a, b);
      NumbersFollowTheCalendar(a.date, b.date);
    case ThisYear =>
      DatedLabelIsInjective(a, b);
      SameYearIff(a.date, now.date.year);
      SameYearIff(b.date, now.date.year);
    case AnotherYear =>
      FullLabelIsInjective(a, b);
  }
}
