/**
 * The nested helper `get_group_key_and_next`: for a date-time and a group type
 * (`"hour"`, `"day"` or `"month"`) it gives the label of the bucket the
 * date-time falls in and the position the pre-population loop steps to next.
 *
 * A label is the `strftime` text of the bucket's first instant. The step is
 * taken from the date-time itself, not from its bucket's start: one hour or
 * one day later for hours and days, the first instant of the following month
 * for months.
 */
module Bucketing {
  import opened Calendar
  import opened Labels

  datatype Unit = Hour | Day | Month

  /** The exceptions the helper can raise. */
  datatype Error =
    | UnsupportedGroupType(groupType: string)  // ValueError for any other group type
    | DateOverflow                             // OverflowError from `date + timedelta(...)`
    | YearOutOfRange(year: int)                // ValueError from `datetime(10000, 1, 1)`

  datatype Result<T> = Ok(value: T) | Err(error: Error)

  /** The group types the helper accepts, and the bucket width each names. */
  function ParseUnit(groupType: string): Option<Unit> {
    if groupType == "hour" then Some(Hour)
    else if groupType == "day" then Some(Day)
    else if groupType == "month" then Some(Month)
    else None
  }

  /** The first instant of the bucket `d` falls in. */
  function BucketStart(d: DateTime, u: Unit): (b: DateTime)
    requires Valid(d)
    ensures Valid(b) && LessEq(b, d)
  {
    match u
    case Hour => d.(minute := 0, second := 0)
    case Day => d.(hour := 0, minute := 0, second := 0)
    case Month => d.(day := 1, hour := 0, minute := 0, second := 0)
  }

  /** Two date-times share a bucket when they agree on every field the unit keeps. */
  predicate SameBucket(a: DateTime, b: DateTime, u: Unit) {
    && a.year == b.year
    && a.month == b.month
    && (u == Month || a.day == b.day)
    && (u != Hour || a.hour == b.hour)
  }

  /** The label of `d`'s bucket: the ISO text of the bucket's first instant. */
  function Label(d: DateTime, u: Unit): string
    requires Valid(d)
  {
    IsoFormat(BucketStart(d, u))
  }

  /** `date.strftime("%Y-%m-%dT%H:00:00")`: four directives, then fixed text. */
  function HourKey(d: DateTime): (key: string)
    requires Valid(d)
    ensures key == Label(d, Hour)
  {
    var prefix := [Field("", d.year, 4), Field("-", d.month, 2), Field("-", d.day, 2), Field("T", d.hour, 2)];
    assert IsoFields(BucketStart(d, Hour)) == prefix + ZeroSeconds();
    RenderAppend(prefix, ZeroSeconds());
    FixedTexts();
    Render(prefix) + ":00:00"
  }

  /** `date.strftime("%Y-%m-%dT00:00:00")`: three directives, then fixed text. */
  function DayKey(d: DateTime): (key: string)
    requires Valid(d)
    ensures key == Label(d, Day)
  {
    var prefix := [Field("", d.year, 4), Field("-", d.month, 2), Field("-", d.day, 2)];
    assert IsoFields(BucketStart(d, Day)) == prefix + Midnight();
    RenderAppend(prefix, Midnight());
    FixedTexts();
    Render(prefix) + "T00:00:00"
  }

  /** `date.strftime("%Y-%m-01T00:00:00")`: two directives, then fixed text. */
  function MonthKey(d: DateTime): (key: string)
    requires Valid(d)
    ensures key == Label(d, Month)
  {
    var prefix := [Field("", d.year, 4), Field("-", d.month, 2)];
    assert IsoFields(BucketStart(d, Month)) == prefix + FirstOfMonth();
    RenderAppend(prefix, FirstOfMonth());
    FixedTexts();
    Render(prefix) + "-01T00:00:00"
  }

  /** The fixed text at the end of the keys: `:00:00`, `T00:00:00`, `-01T00:00:00`. */
  lemma FixedTexts()
    ensures Render(ZeroSeconds()) == ":00:00"
    ensures Render(Midnight()) == "T00:00:00"
    ensures Render(FirstOfMonth()) == "-01T00:00:00"
  {
    ZeroSecondsText();
    RenderCons(Field("T", 0, 2), ZeroSeconds());
    RenderCons(Field("-", 1, 2), Midnight());
    assert ZeroPad(0, 2) == "00" && ZeroPad(1, 2) == "01";
  }

  lemma ZeroSecondsText()
    ensures Render(ZeroSeconds()) == ":00:00"
  {
    var f := Field(":", 0, 2);
    assert ZeroPad(0, 2) == "00";
    RenderCons(f, []);
    RenderCons(f, [f]);
  }

  function ZeroSeconds(): seq<Field> {
    [Field(":", 0, 2), Field(":", 0, 2)]
  }

  function Midnight(): seq<Field> {
    [Field("T", 0, 2)] + ZeroSeconds()
  }

  function FirstOfMonth(): seq<Field> {
    [Field("-", 1, 2)] + Midnight()
  }

  /** Where the helper raises instead of stepping: the step would leave year 9999. */
  predicate NoSuccessor(d: DateTime, u: Unit) {
    && d.year == MaxYear
    && d.month == 12
    && (u == Month || d.day == 31)
    && (u != Hour || d.hour == 23)
  }

  function SuccessorError(u: Unit): Error {
    if u == Month then YearOutOfRange(MaxYear + 1) else DateOverflow
  }

  /** `get_group_key_and_next(date, group_type)` */
  function GroupKeyAndNext(date: DateTime, groupType: string): (r: Result<(string, DateTime)>)
    requires Valid(date)
    ensures ParseUnit(groupType).None? ==> r == Err(UnsupportedGroupType(groupType))
    ensures ParseUnit(groupType).Some? ==>
      var u := ParseUnit(groupType).value;
      && (r.Err? <==> NoSuccessor(date, u))
      && (r.Err? ==> r.error == SuccessorError(u))
      && (r.Ok? ==> r.value.0 == Label(date, u))
    ensures r.Ok? ==> Valid(r.value.1) && Less(date, r.value.1)
  {
    if groupType == "hour" then
      match AddHour(date)
      case None => Err(DateOverflow)
      case Some(next) => Ok((HourKey(date), next))
    else if groupType == "day" then
      match AddDay(date)
      case None => Err(DateOverflow)
      case Some(next) => Ok((DayKey(date), next))
    else if groupType == "month" then
      match NextMonthStart(date)
      case None => Err(YearOutOfRange(date.year + 1))
      case Some(next) => Ok((MonthKey(date), next))
    else
      Err(UnsupportedGroupType(groupType))
  }

  /**
   * The step: exactly one hour or one day after `date` itself (minutes and
   * seconds, or the time of day, carried over), or the first instant of the
   * following month, December rolling over into January of the next year.
   */
  lemma StepIsOneUnitLater(date: DateTime, groupType: string)
    requires Valid(date) && GroupKeyAndNext(date, groupType).Ok?
    ensures var next := GroupKeyAndNext(date, groupType).value.1;
      && (groupType == "hour" ==>
        && TotalSeconds(next) == TotalSeconds(date) + 3600
        && next.minute == date.minute && next.second == date.second)
      && (groupType == "day" ==>
        && TotalSeconds(next) == TotalSeconds(date) + 86400
        && SecondOfDay(next) == SecondOfDay(date))
      && (groupType == "month" ==>
        && next.day == 1 && next.hour == 0 && next.minute == 0 && next.second == 0
        && (date.month < 12 ==> next.year == date.year && next.month == date.month + 1)
        && (date.month == 12 ==> next.year == date.year + 1 && next.month == 1))
  {
    if groupType == "hour" {
      AddHourIsOneHourLater(date);
    } else if groupType == "day" {
      AddDayIsOneDayLater(date);
    }
  }

  /** The step for each group type, as the successor function of the calendar that computes it. */
  lemma StepIsSuccessor(date: DateTime, groupType: string)
    requires Valid(date) && GroupKeyAndNext(date, groupType).Ok?
    ensures var next := GroupKeyAndNext(date, groupType).value.1;
      && (groupType == "hour" ==> AddHour(date) == Some(next))
      && (groupType == "day" ==> AddDay(date) == Some(next))
      && (groupType == "month" ==> NextMonthStart(date) == Some(next))
  {
  }

  // ---------------------------------------------------------------------------
  // Properties of labels

  /** Two date-times get the same label exactly when they share a bucket. */
  lemma SameLabelIffSameBucket(a: DateTime, b: DateTime, u: Unit)
    requires Valid(a) && Valid(b)
    ensures Label(a, u) == Label(b, u) <==> SameBucket(a, b, u)
  {
    IsoFormatOrder(BucketStart(a, u), BucketStart(b, u));
  }

  /** Truncation keeps the order of date-times (ties allowed). */
  lemma BucketStartMonotone(a: DateTime, b: DateTime, u: Unit)
    requires Valid(a) && Valid(b) && LessEq(a, b)
    ensures LessEq(BucketStart(a, u), BucketStart(b, u))
  {
  }

  /**
   * Labels of date-times in time order are in string order: the sort of the
   * labels is chronological.
   */
  lemma LabelOrderIsChronological(a: DateTime, b: DateTime, u: Unit)
    requires Valid(a) && Valid(b)
    ensures StrLess(Label(a, u), Label(b, u)) <==> Less(BucketStart(a, u), BucketStart(b, u))
    ensures LessEq(a, b) ==> StrLess(Label(a, u), Label(b, u)) || Label(a, u) == Label(b, u)
  {
    IsoFormatOrder(BucketStart(a, u), BucketStart(b, u));
    if LessEq(a, b) {
      BucketStartMonotone(a, b, u);
    }
  }

  /** A label earlier in string order belongs to an earlier date-time. */
  lemma EarlierLabelEarlierInstant(a: DateTime, b: DateTime, u: Unit)
    requires Valid(a) && Valid(b) && StrLess(Label(a, u), Label(b, u))
    ensures Less(a, b)
  {
    LabelOrderIsChronological(a, b, u);
  }

  /** The bucket of the step comes strictly after the bucket of the date-time stepped from. */
  lemma StepAdvancesLabel(date: DateTime, groupType: string, u: Unit)
    requires ParseUnit(groupType) == Some(u) && Valid(date) && GroupKeyAndNext(date, groupType).Ok?
    ensures StrLess(Label(date, u), Label(GroupKeyAndNext(date, groupType).value.1, u))
  {
    var next := GroupKeyAndNext(date, groupType).value.1;
    StepIsOneUnitLater(date, groupType);
    LabelOrderIsChronological(date, next, u);
    if u == Hour {
      HourStartAdvances(date, next);
    } else if u == Day {
      DayStartAdvances(date, next);
    }
  }

  lemma HourStartAdvances(date: DateTime, next: DateTime)
    requires Valid(date) && Valid(next)
    requires TotalSeconds(next) == TotalSeconds(date) + 3600
    requires next.minute == date.minute && next.second == date.second
    ensures Less(BucketStart(date, Hour), BucketStart(next, Hour))
  {
    var a, b := BucketStart(date, Hour), BucketStart(next, Hour);
    OrderMatchesTimeline(a, b);
    assert TotalSeconds(a) == TotalSeconds(date) - (date.minute * 60 + date.second);
    assert TotalSeconds(b) == TotalSeconds(next) - (next.minute * 60 + next.second);
  }

  lemma DayStartAdvances(date: DateTime, next: DateTime)
    requires Valid(date) && Valid(next)
    requires TotalSeconds(next) == TotalSeconds(date) + 86400 && SecondOfDay(next) == SecondOfDay(date)
    ensures Less(BucketStart(date, Day), BucketStart(next, Day))
  {
    var a, b := BucketStart(date, Day), BucketStart(next, Day);
    OrderMatchesTimeline(a, b);
    assert TotalSeconds(a) == TotalSeconds(date) - SecondOfDay(date);
    assert TotalSeconds(b) == TotalSeconds(next) - SecondOfDay(next);
  }

  /** A bucket-aligned date-time for the unit (the pre-population loop's positions when it starts aligned). */
  predicate Aligned(d: DateTime, u: Unit)
    requires Valid(d)
  {
    u == Month || BucketStart(d, u) == d
  }

  /**
   * From an aligned position (any position, for months) the step lands on the
   * first instant of the next bucket: every later date-time outside the
   * current bucket is at or after it, and the step is itself aligned.
   */
  lemma StepReachesNextBucket(current: DateTime, groupType: string, u: Unit, d: DateTime)
    requires ParseUnit(groupType) == Some(u) && Valid(current) && Valid(d)
    requires Aligned(current, u)
    requires GroupKeyAndNext(current, groupType).Ok?
    requires LessEq(current, d) && !SameBucket(current, d, u)
    ensures LessEq(GroupKeyAndNext(current, groupType).value.1, d)
    ensures Aligned(GroupKeyAndNext(current, groupType).value.1, u)
  {
    var next := GroupKeyAndNext(current, groupType).value.1;
    StepIsOneUnitLater(current, groupType);
    if u == Hour {
      AlignedStepReachesNextBucket(current, next, d, Hour, 3600);
    } else if u == Day {
      AlignedStepReachesNextBucket(current, next, d, Day, 86400);
    }
  }

  lemma AlignedStepReachesNextBucket(current: DateTime, next: DateTime, d: DateTime, u: Unit, width: int)
    requires Valid(current) && Valid(next) && Valid(d)
    requires (u == Hour && width == 3600) || (u == Day && width == 86400)
    requires BucketStart(current, u) == current
    requires TotalSeconds(next) == TotalSeconds(current) + width
    requires LessEq(current, d) && !SameBucket(current, d, u)
    ensures LessEq(next, d)
  {
    var start := BucketStart(d, u);
    BucketStartMonotone(current, d, u);
    assert Less(current, start);
    OrderMatchesTimeline(current, start);
    OrderMatchesTimeline(next, start);
    OrderMatchesTimeline(start, d);
    if u == Hour {
      HourStartsApart(current, start);
    } else {
      DayStartsApart(current, start);
    }
    LessEqTransitive(next, start, d);
  }

  /** Two distinct starts of hours are at least an hour apart. */
  lemma HourStartsApart(a: DateTime, b: DateTime)
    requires Valid(a) && Valid(b) && a.minute == 0 && a.second == 0 && b.minute == 0 && b.second == 0
    requires TotalSeconds(a) < TotalSeconds(b)
    ensures TotalSeconds(a) + 3600 <= TotalSeconds(b)
  {
    var n1, n2 := DayNumber(a), DayNumber(b);
    assert TotalSeconds(a) == 3600 * ((n1 - 1) * 24 + a.hour);
    assert TotalSeconds(b) == 3600 * ((n2 - 1) * 24 + b.hour);
    MultiplesApart((n1 - 1) * 24 + a.hour, (n2 - 1) * 24 + b.hour);
  }

  /** Two distinct midnights are at least a day apart. */
  lemma DayStartsApart(a: DateTime, b: DateTime)
    requires Valid(a) && Valid(b) && SecondOfDay(a) == 0 && SecondOfDay(b) == 0
    requires TotalSeconds(a) < TotalSeconds(b)
    ensures TotalSeconds(a) + 86400 <= TotalSeconds(b)
  {
    var n1, n2 := DayNumber(a), DayNumber(b);
    assert TotalSeconds(a) == 86400 * (n1 - 1);
    assert TotalSeconds(b) == 86400 * (n2 - 1);
    DayMultiplesApart(n1 - 1, n2 - 1);
  }

  /** Distinct multiples of a day are at least a day apart. */
  lemma DayMultiplesApart(x: int, y: int)
    requires 86400 * x < 86400 * y
    ensures 86400 * x + 86400 <= 86400 * y
  {
  }

  /** Distinct multiples of an hour are at least an hour apart. */
  lemma MultiplesApart(x: int, y: int)
    requires 3600 * x < 3600 * y
    ensures 3600 * x + 3600 <= 3600 * y
  {
  }

}
