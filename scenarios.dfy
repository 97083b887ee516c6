/**
 * Runs of `aggregate_data` worked out from the model: daily totals over two
 * days, monthly buckets across a year boundary, and an hourly range that
 * starts in the middle of an hour.
 */
module Scenarios {
  import opened Calendar
  import opened Labels
  import opened Bucketing
  import opened Aggregation
  import opened Properties

  /** The last second of `d`'s day. */
  function EndOfDay(d: DateTime): DateTime {
    d.(hour := 23, minute := 59, second := 59)
  }

  lemma DayStep(d: DateTime, next: DateTime)
    requires Valid(d) && AddDay(d) == Some(next)
    ensures GroupKeyAndNext(d, "day") == Ok((Label(d, Day), next))
  {
    StepIsSuccessor(d, "day");
  }

  lemma DayEndsBeforeNextDay(d: DateTime, next: DateTime)
    requires Valid(d) && SecondOfDay(d) == 0 && AddDay(d) == Some(next)
    ensures Valid(EndOfDay(d)) && LessEq(d, EndOfDay(d)) && !LessEq(next, EndOfDay(d))
  {
    AddDayIsOneDayLater(d);
    OrderMatchesTimeline(next, EndOfDay(d));
  }

  lemma SecondDayPrepopulation(next: DateTime)
    requires Valid(next) && SecondOfDay(next) == 0 && AddDay(next).Some?
    ensures Valid(EndOfDay(next)) && LessEq(next, EndOfDay(next))
    ensures Prepopulated(next, EndOfDay(next), "day") == Ok([Label(next, Day)])
  {
    var third := AddDay(next).value;
    DayStep(next, third);
    DayEndsBeforeNextDay(next, third);
    PrepopulatedLastStep(next, EndOfDay(next), "day", Label(next, Day), third);
  }

  /** From midnight to the end of the next day, daily: the two days' labels. */
  lemma TwoDayPrepopulation(from: DateTime, next: DateTime)
    requires Valid(from) && SecondOfDay(from) == 0
    requires AddDay(from) == Some(next) && AddDay(next).Some?
    ensures Valid(EndOfDay(next))
    ensures Prepopulated(from, EndOfDay(next), "day") == Ok([Label(from, Day), Label(next, Day)])
  {
    var upto := EndOfDay(next);
    SecondDayPrepopulation(next);
    DayStep(from, next);
    OrderMatchesTimeline(from, next);
    LessEqTransitive(from, next, upto);
    PrepopulatedStep(from, upto, "day", Label(from, Day), next);
    assert [Label(from, Day)] + [Label(next, Day)] == [Label(from, Day), Label(next, Day)];
  }

  lemma MonthStep(d: DateTime, next: DateTime)
    requires Valid(d) && NextMonthStart(d) == Some(next)
    ensures GroupKeyAndNext(d, "month") == Ok((Label(d, Month), next))
  {
    StepIsSuccessor(d, "month");
  }

  lemma HourStep(d: DateTime, next: DateTime)
    requires Valid(d) && AddHour(d) == Some(next)
    ensures GroupKeyAndNext(d, "hour") == Ok((Label(d, Hour), next))
  {
    StepIsSuccessor(d, "hour");
  }

  /** From the first of January, monthly, up to a day in January: only January's label. */
  lemma JanuaryOnly(jan: DateTime, upto: DateTime)
    requires Valid(upto) && upto.month == 1 && jan == DateTime(upto.year, 1, 1, 0, 0, 0)
    ensures Valid(jan) && Prepopulated(jan, upto, "month") == Ok([Label(jan, Month)])
  {
    var feb := DateTime(upto.year, 2, 1, 0, 0, 0);
    MonthStep(jan, feb);
    PrepopulatedLastStep(jan, upto, "month", Label(jan, Month), feb);
  }

  /** The step from a day in December of a year before 9999: the first of January of the next year. */
  lemma DecemberStep(from: DateTime, jan: DateTime)
    requires Valid(from) && from.month == 12 && from.year < MaxYear
    requires jan == DateTime(from.year + 1, 1, 1, 0, 0, 0)
    ensures Valid(jan) && Less(from, jan)
    ensures GroupKeyAndNext(from, "month") == Ok((Label(from, Month), jan))
  {
    MonthStep(from, jan);
  }

  /** From a day in December to a day in the following January, monthly: December's and January's labels. */
  lemma MonthRolloverLabels(from: DateTime, upto: DateTime)
    requires Valid(from) && Valid(upto)
    requires from.month == 12 && upto.year == from.year + 1 && upto.month == 1
    ensures var jan := DateTime(upto.year, 1, 1, 0, 0, 0);
      Valid(jan) && Prepopulated(from, upto, "month") == Ok([Label(from, Month), Label(jan, Month)])
  {
    var jan := DateTime(upto.year, 1, 1, 0, 0, 0);
    var l1, l2 := Label(from, Month), Label(jan, Month);
    JanuaryOnly(jan, upto);
    DecemberStep(from, jan);
    assert LessEq(jan, upto);
    LessEqTransitive(from, jan, upto);
    PrepopulatedStep(from, upto, "month", l1, jan);
    assert [l1] + [l2] == [l1, l2];
  }

  /** The month label of a date-time is the first of its month at midnight. */
  lemma MonthLabel(d: DateTime)
    requires Valid(d)
    ensures Label(d, Month) == IsoFormat(DateTime(d.year, d.month, 1, 0, 0, 0))
  {
    assert BucketStart(d, Month) == DateTime(d.year, d.month, 1, 0, 0, 0);
  }

  /**
   * Monthly buckets from a day in December to a day in the following January:
   * the first of December and the first of January, the year rolling over.
   */
  lemma MonthRollover(from: DateTime, upto: DateTime)
    requires Valid(from) && Valid(upto)
    requires from.month == 12 && upto.year == from.year + 1 && upto.month == 1
    ensures Prepopulated(from, upto, "month") ==
      Ok([IsoFormat(DateTime(from.year, 12, 1, 0, 0, 0)), IsoFormat(DateTime(upto.year, 1, 1, 0, 0, 0))])
  {
    MonthRolloverLabels(from, upto);
    MonthLabel(from);
    MonthLabel(DateTime(upto.year, 1, 1, 0, 0, 0));
  }

  /**
   * An hourly range that starts at minute `from.minute` and ends in the next
   * hour at an earlier minute: the loop steps from the start itself, past the
   * end, so only the first hour's label is written, although the range
   * reaches into the second hour and the label of its end differs.
   */
  lemma UnalignedHourlyRange(from: DateTime, upto: DateTime)
    requires Valid(from) && Valid(upto) && from.hour < 23
    requires upto == from.(hour := from.hour + 1, minute := upto.minute, second := upto.second)
    requires upto.minute < from.minute
    ensures Prepopulated(from, upto, "hour") == Ok([Label(from, Hour)])
    ensures InRange(upto, from, upto) && Label(upto, Hour) != Label(from, Hour)
  {
    var next := from.(hour := from.hour + 1);
    HourStep(from, next);
    PrepopulatedLastStep(from, upto, "hour", Label(from, Hour), next);
    SameLabelIffSameBucket(from, upto, Hour);
  }
}
