# Payment aggregation by hour, day or month

This project models `aggregate_data` from `main.py`. The function takes a date
range `[dt_from, dt_upto]`, a group type (`"hour"`, `"day"` or `"month"`) and a
collection of payments, and returns two parallel lists. `labels` holds the
bucket labels in ascending string order, and `dataset` holds each bucket's sum
of payment values.

The model follows the function's own structure:

- `calendar.dfy` (module `Calendar`) covers the values a Python `datetime`
  holds, at second precision, for years 1 to 9999. It defines Python's
  comparison of date-times and the three successors the helper uses:
  `date + timedelta(hours=1)`, `date + timedelta(days=1)` and
  `datetime(next_year, next_month, 1)`. A successor past 9999-12-31 is an
  error, as in Python. A reference timeline (`TotalSeconds`) gives the
  comparison and the successors a meaning independent of their definitions.
- `labels.dfy` (module `Labels`) covers Python's ordering of strings and the
  zero-padded ISO text of a date-time. It proves that this text sorts exactly
  as the date-times do and that distinct date-times give distinct texts.
- `bucketing.dfy` (module `Bucketing`) covers the nested helper
  `get_group_key_and_next`, including its three `strftime` patterns and its
  `ValueError` for any other group type. It also has the properties of labels
  and steps that the loops rely on.
- `aggregation.dfy` (module `Aggregation`) has `AggregateData`, an imperative
  procedure made of three parts:
  - the pre-population `while` loop (`PrepopulateBuckets`);
  - the accumulation `for` loop (`AccumulatePayments`, whose body is `AddPayment`);
  - the sorted emission (`SortKeys`).

  Each loop is proved equal to a function that describes it step by step
  (`Prepopulated`, `Accumulate`, `Grouped`). `BucketSum` and `Hits` state
  independently what each bucket should hold.
- `properties.dfy` (module `Properties`) proves what the call guarantees:
  - which labels are pre-populated;
  - which buckets exist and what each sums;
  - when the call raises;
  - that the emitted series is determined by the buckets.
- `scenarios.dfy` (module `Scenarios`) works out typical runs symbolically:
  - two whole days, daily;
  - December to January, monthly;
  - an hourly range that starts in the middle of an hour.

The step of the pre-population loop starts from the date-time itself, not from
the start of its bucket (`main.py:50`, `main.py:54`). Stepping from the
bucket's start would visit every bucket the range touches; the code steps
from the date-time itself, and this model follows the code. As a result, a
range that starts in the middle of an hour or a day can end in a bucket the
loop never visits. `Scenarios.UnalignedHourlyRange` proves one such case.
When the range starts on a bucket boundary, every bucket the range touches is
pre-populated (`Properties.AlignedStartCoversRange`). For months every
position counts as aligned, even a `dt_from` in the middle of a month,
because the month step always lands on the first of the next month.

## Model

| member | source | states |
|---|---|---|
| Calendar.AddHour | main.py:50-52 | One hour after a valid date-time is valid and later, with the same minute and second. It fails exactly from 9999-12-31 23:00 on, where Python raises OverflowError |
| Calendar.AddHourIsOneHourLater | main.py:50-52 | The hour step lands exactly 3600 seconds later on the timeline |
| Calendar.AddDay | main.py:54 | One day after a valid date-time is valid and later, with the same time of day. It fails exactly on 9999-12-31 |
| Calendar.AddDayIsOneDayLater | main.py:54 | The day step lands exactly 86400 seconds later on the timeline, across month ends, year ends and leap days |
| Calendar.NextMonthStart | main.py:55-60 | For months 1 to 11 the step is the first of the next month at midnight, same year. For December it is January 1 of the next year. It fails exactly in December 9999, where `datetime(10000, 1, 1)` raises |
| Calendar.OrderMatchesTimeline | main.py:68 | Python's field-by-field `<`, `<=` and `==` on date-times agree with the order of their seconds on the timeline |
| Labels.StrLessIrreflexive | main.py:81 | The string order `sorted` uses is irreflexive |
| Labels.StrLessTransitive | main.py:81 | The string order `sorted` uses is transitive |
| Labels.StrLessTotal | main.py:81 | Any two distinct strings are ordered one way or the other |
| Labels.StrLessAsymmetric | main.py:81 | No two strings are each below the other |
| Labels.ZeroPadOrder | main.py:50 | Zero-padded numbers of one width compare as strings exactly as the numbers do, and are equal only for equal numbers |
| Labels.RenderOrder | main.py:50 | Texts built from fields of the same layout compare as their field values do, field by field, and are equal only for equal fields |
| Labels.IsoFormatOrder | main.py:50-58 | The `%Y-%m-%dT%H:%M:%S` text of date-times orders them exactly as Python compares them, and it is injective |
| Labels.AscendingIsUnique | main.py:81 | Two strictly ascending lists with the same elements are equal |
| Bucketing.HourKey | main.py:50 | `strftime("%Y-%m-%dT%H:00:00")` is the ISO text of the date-time with minutes and seconds set to zero |
| Bucketing.DayKey | main.py:54 | `strftime("%Y-%m-%dT00:00:00")` is the ISO text of the date-time at midnight |
| Bucketing.MonthKey | main.py:58 | `strftime("%Y-%m-01T00:00:00")` is the ISO text of the first of the month at midnight |
| Bucketing.GroupKeyAndNext | main.py:49-62 | Any other group type gives the ValueError. Otherwise the helper fails exactly where the step would leave year 9999, and it fails with that step's error. The key is the label of the date-time's bucket, and the next date-time is valid and strictly later |
| Bucketing.StepIsOneUnitLater | main.py:49-60 | The step is exactly one hour later (same minute and second) or one day later (same time of day), taken from the date-time itself. For months it is midnight on the first of the next month, and December rolls into January of the next year |
| Bucketing.SameLabelIffSameBucket | main.py:49-58 | Two date-times get the same key exactly when they share the year, month, day and hour (hour keys), the date (day keys), or the year and month (month keys) |
| Bucketing.BucketStartMonotone | main.py:49-58 | Truncating to a bucket's start keeps the order of date-times |
| Bucketing.LabelOrderIsChronological | main.py:81 | One label is below another exactly when its bucket starts earlier, and a later date-time never gets a smaller label |
| Bucketing.EarlierLabelEarlierInstant | main.py:81 | A smaller label belongs to an earlier date-time |
| Bucketing.StepAdvancesLabel | main.py:68-72 | The label after a step is strictly above the label before it, so the loop never writes a key twice |
| Bucketing.StepReachesNextBucket | main.py:68-72 | From a bucket boundary (any position, for months) the step skips no later bucket: it lands at or before every later date-time outside the current bucket, and on a boundary again |
| Aggregation.InRangeOnly | main.py:77 | The payments kept by the range check are exactly those with `dt_from <= dt <= dt_upto`, each as many times as it was given |
| Aggregation.PrepopulateBuckets | main.py:64-72 | The `while` loop leaves exactly the written keys, each holding 0, or raises the helper's error |
| Aggregation.AddPayment | main.py:76-79 | The loop body adds an in-range payment's value to the bucket of its own timestamp, creating the bucket at 0 first if missing. It leaves the map alone for an out-of-range payment, or raises the helper's error |
| Aggregation.AccumulatePayments | main.py:75-79 | The `for` loop applies the body to each payment in order and stops at the first error |
| Aggregation.SortKeys | main.py:81 | `sorted(keys)` is strictly ascending and holds exactly the keys |
| Aggregation.Insert | main.py:81 | Inserting a missing key into an ascending list keeps it ascending and adds exactly that key |
| Aggregation.AggregateData | main.py:64-86 | The call raises exactly when the two loops raise, with the same error. Otherwise `labels` holds the final buckets' keys in strictly ascending order, with `dataset[i]` equal to the bucket of `labels[i]` and both lists the same length |
| Properties.PrepopulatedLabels | main.py:64-72 | Nothing is written when `dt_from > dt_upto`. Otherwise the first key is the label of `dt_from`, the keys strictly ascend (no duplicates), and each is the label of some date-time in the range |
| Properties.PrepopulatedLastStep | main.py:68-72 | A turn whose step passes `dt_upto` writes only its own key |
| Properties.AlignedStartCoversRange | main.py:64-72 | From a bucket boundary (any start, for months) the loop writes the label of every date-time in the range |
| Properties.SingleInstantRange | main.py:67-72 | A range of one instant pre-populates exactly that instant's bucket |
| Properties.EmptyBucketSumsToZero | main.py:75-79 | A bucket that no in-range payment falls in sums to 0 |
| Properties.AccumulateOneBucket | main.py:77-79 | One turn changes only the bucket of an in-range payment, by its value |
| Properties.AccumulateBucket | main.py:75-79 | After the loop a bucket exists exactly when it existed before or an in-range payment falls in it. It holds its earlier value plus the sum of those payments' values |
| Properties.AccumulateContents | main.py:75-79 | The previous statement, for every bucket at once |
| Properties.OutOfRangeIgnored | main.py:77 | Payments outside `[dt_from, dt_upto]` change nothing: the loop over only the in-range ones ends the same |
| Properties.GroupedBuckets | main.py:64-79 | After both loops the buckets are exactly the pre-populated keys plus the keys of in-range payments. Each holds the sum of the in-range payments whose own key it is, and the bucket of `dt_from` is present whenever `dt_from <= dt_upto` |
| Properties.GroupedIgnoresOutOfRange | main.py:77 | Dropping out-of-range payments first gives the same buckets, or the same error |
| Properties.EmptyRange | main.py:67-79 | When `dt_from > dt_upto` the call returns no buckets and raises nothing, whatever the group type and the payments |
| Properties.PrepopulatedErrors | main.py:61-72 | The pre-population loop can only raise its step's overflow error, and cannot raise when `dt_upto` is before year 9999 |
| Properties.AccumulateErrors | main.py:75-79 | The accumulation loop can only raise the step's overflow error, and cannot raise when `dt_upto` is before year 9999 |
| Properties.GroupedErrors | main.py:49-79 | An unsupported group type raises ValueError exactly when `dt_from <= dt_upto`, and otherwise gives no buckets. A supported one raises only its step's overflow error, and never when `dt_upto` is before year 9999 |
| Properties.EmissionIsDeterministic | main.py:81-86 | The emitted `labels` and `dataset` are determined by the final buckets |
| Properties.SeriesHoldsBucketSums | main.py:64-86 | The emitted labels are the pre-populated keys plus the keys of in-range payments. `dataset[i]` is the sum of the in-range payments in bucket `labels[i]`, and a later label always belongs to a later date-time |
| Scenarios.TwoDayPrepopulation | main.py:54-72 | From midnight to the end of the next day, daily, the loop writes the two days' labels, in order |
| Scenarios.JanuaryOnly | main.py:55-72 | From January 1 to any day in January, monthly, only January's label is written |
| Scenarios.DecemberStep | main.py:55-60 | From any day of December before year 9999, the month step gives December's label and January 1 of the next year |
| Scenarios.MonthRollover | main.py:55-72 | From a day in December to a day in the following January, monthly, the labels are the first of December and the first of January, across the year boundary |
| Scenarios.UnalignedHourlyRange | main.py:50-72 | For a range from minute m of one hour to an earlier minute of the next hour, only the first hour's label is pre-populated, although the range's end lies in the next hour and has a different label |

## Left out

- The Telegram bot (`bot.py`) is not part of this model. It is input and output glue around one call of `aggregate_data`.
- Reading the payment file and decoding it with `bson.decode_all` (`main.py:31-32`) are left out. The payments are a given sequence of (date-time, integer value) pairs.
- `datetime.fromisoformat` (`main.py:28-29`) is left out. `dt_from` and `dt_upto` are taken as already parsed, valid date-times.
- Microseconds are left out: date-times have second precision.
- Time zones are left out, together with Python's TypeError for comparing naive and aware date-times.
- A missing `"dt"` or `"value"` field (KeyError) and non-integer values are left out. Values are unbounded integers, as Python's `int` is.
- Labels.IsoFormat: always renders the year with four digits. The platform's `%Y` may print years below 1000 without leading zeros, so for those years the model's labels differ from the program's.
- Aggregation.SortKeys: models `sorted` as an insertion sort over the key set. Only its result is specified (strictly ascending, same keys), not Python's algorithm.
- Aggregation.AggregateData: returns the two lists as a `Series` value rather than a dictionary with `"dataset"` and `"labels"` entries.
- The worked examples in `Scenarios` are stated for all date-times of a given shape rather than for fixed calendar dates.
