/**
 * `aggregate_data`: pre-populate a zero bucket for each position the step
 * function visits from `dt_from` while the position is at most `dt_upto`, add
 * the value of every payment whose own timestamp lies in `[dt_from, dt_upto]`
 * to its bucket (creating the bucket if the first loop did not), then return
 * the labels in ascending string order with their sums.
 *
 * The functions `Prepopulated`, `Accumulate` and `Grouped` say what the two
 * loops compute, step for step; `BucketSum` and `Hits` say, independently,
 * what each bucket should hold. `AggregateData` is the imperative procedure,
 * proved against the former; the lemmas connect the former to the latter.
 */
module Aggregation {
  import opened Calendar
  import opened Labels
  import opened Bucketing

  /** A decoded payment document: its `dt` and its integer `value`. */
  datatype Payment = Payment(dt: DateTime, value: int)

  /** The returned dictionary: `dataset[i]` is the sum for `labels[i]`. */
  datatype Series = Series(dataset: seq<int>, labels: seq<string>)

  /** `dt_from <= d <= dt_upto`, both ends included. */
  predicate InRange(d: DateTime, from: DateTime, upto: DateTime) {
    LessEq(from, d) && LessEq(d, upto)
  }

  predicate AllValid(payments: seq<Payment>) {
    forall i :: 0 <= i < |payments| ==> Valid(payments[i].dt)
  }

  /** Reading a `defaultdict(int)`: a missing key reads as 0. */
  function Get(m: map<string, int>, key: string): int {
    if key in m then m[key] else 0
  }

  // ---------------------------------------------------------------------------
  // What the two loops compute

  /** Prefixes the labels of an earlier part of the loop to a later part's outcome. */
  function Prepend(prefix: seq<string>, r: Result<seq<string>>): Result<seq<string>> {
    match r
    case Ok(rest) => Ok(prefix + rest)
    case Err(e) => Err(e)
  }

  /** The labels the pre-population loop writes from position `current` on, in order. */
  function Prepopulated(current: DateTime, upto: DateTime, groupType: string): Result<seq<string>>
    requires Valid(current) && Valid(upto)
    decreases TotalSeconds(upto) - TotalSeconds(current)
  {
    if !LessEq(current, upto) then
      Ok([])
    else
      OrderMatchesTimeline(current, upto);
      match GroupKeyAndNext(current, groupType)
      case Err(e) => Err(e)
      case Ok((key, next)) =>
        OrderMatchesTimeline(current, next);
        Prepend([key], Prepopulated(next, upto, groupType))
  }

  /** The map the pre-population loop leaves: each written label holding 0. */
  function ZeroMap(keys: seq<string>): map<string, int> {
    map key | key in keys :: 0
  }

  /** One turn of the accumulation loop. */
  function AccumulateOne(m: map<string, int>, payment: Payment, from: DateTime, upto: DateTime, groupType: string)
    : Result<map<string, int>>
    requires Valid(payment.dt)
  {
    if InRange(payment.dt, from, upto) then
      match GroupKeyAndNext(payment.dt, groupType)
      case Err(e) => Err(e)
      case Ok((key, _)) => Ok(m[key := Get(m, key) + payment.value])
    else
      Ok(m)
  }

  /** The accumulation loop over `payments`, front to back, stopping at the first error. */
  function Accumulate(m: map<string, int>, payments: seq<Payment>, from: DateTime, upto: DateTime, groupType: string)
    : Result<map<string, int>>
    requires AllValid(payments)
    decreases |payments|
  {
    if payments == [] then
      Ok(m)
    else
      match Accumulate(m, payments[..|payments| - 1], from, upto, groupType)
      case Err(e) => Err(e)
      case Ok(m') => AccumulateOne(m', payments[|payments| - 1], from, upto, groupType)
  }

  /** `grouped_data` once both loops have run, or the exception the call raises. */
  function Grouped(from: DateTime, upto: DateTime, groupType: string, payments: seq<Payment>): Result<map<string, int>>
    requires Valid(from) && Valid(upto) && AllValid(payments)
  {
    match PrepopulatedMap(from, upto, groupType)
    case Err(e) => Err(e)
    case Ok(zeroed) => Accumulate(zeroed, payments, from, upto, groupType)
  }

  /** `series` is the emission of `grouped`: its keys in ascending order, each with its sum. */
  ghost predicate Emits(series: Series, grouped: map<string, int>) {
    && |series.dataset| == |series.labels|
    && StrictlyAscending(series.labels)
    && (forall key :: key in series.labels <==> key in grouped)
    && (forall i :: 0 <= i < |series.labels| ==> series.labels[i] in grouped && series.dataset[i] == grouped[series.labels[i]])
  }

  // ---------------------------------------------------------------------------
  // What each bucket should hold, stated without the loops

  /** The sum of the values of the in-range payments whose bucket is labelled `key`. */
  function BucketSum(payments: seq<Payment>, from: DateTime, upto: DateTime, u: Unit, key: string): int
    requires AllValid(payments)
    decreases |payments|
  {
    if payments == [] then
      0
    else
      var p := payments[|payments| - 1];
      BucketSum(payments[..|payments| - 1], from, upto, u, key)
        + (if InRange(p.dt, from, upto) && Label(p.dt, u) == key then p.value else 0)
  }

  /** Some in-range payment falls in the bucket labelled `key`. */
  predicate Hits(payments: seq<Payment>, from: DateTime, upto: DateTime, u: Unit, key: string)
    requires AllValid(payments)
  {
    exists i :: 0 <= i < |payments| && InRange(payments[i].dt, from, upto) && Label(payments[i].dt, u) == key
  }

  /** The payments whose timestamp lies in the range, in their order. */
  function InRangeOnly(payments: seq<Payment>, from: DateTime, upto: DateTime): (r: seq<Payment>)
    ensures |r| <= |payments|
    ensures forall i :: 0 <= i < |r| ==> r[i] in payments && InRange(r[i].dt, from, upto)
    ensures forall p :: p in payments && InRange(p.dt, from, upto) ==> p in r
    ensures forall q :: multiset(r)[q] == if InRange(q.dt, from, upto) then multiset(payments)[q] else 0
    decreases |payments|
  {
    if payments == [] then
      []
    else
      var prefix, p := payments[..|payments| - 1], payments[|payments| - 1];
      assert payments == prefix + [p];
      InRangeOnly(prefix, from, upto) + (if InRange(p.dt, from, upto) then [p] else [])
  }

  // ---------------------------------------------------------------------------
  // The procedure

  /**
   * `aggregate_data(dt_from, dt_upto, group_type)` on already decoded payments:
   * the pre-population loop, the accumulation loop, then the sorted emission.
   */
  method AggregateData(dtFrom: DateTime, dtUpto: DateTime, groupType: string, payments: seq<Payment>)
    returns (r: Result<Series>)
    requires Valid(dtFrom) && Valid(dtUpto) && AllValid(payments)
    ensures r.Err? <==> Grouped(dtFrom, dtUpto, groupType, payments).Err?
    ensures r.Err? ==> r.error == Grouped(dtFrom, dtUpto, groupType, payments).error
    ensures r.Ok? ==> Emits(r.value, Grouped(dtFrom, dtUpto, groupType, payments).value)
  {
    var zeroed := PrepopulateBuckets(dtFrom, dtUpto, groupType);
    if zeroed.Err? {
      return Err(zeroed.error);
    }
    var summed := AccumulatePayments(zeroed.value, payments, dtFrom, dtUpto, groupType);
    if summed.Err? {
      return Err(summed.error);
    }
    var grouped := summed.value;
    var labels := SortKeys(grouped.Keys);
    var dataset := seq(|labels|, i requires 0 <= i < |labels| => grouped[labels[i]]);
    r := Ok(Series(dataset, labels));
  }

  /** The map the pre-population loop leaves, or the exception it raises. */
  function PrepopulatedMap(from: DateTime, upto: DateTime, groupType: string): Result<map<string, int>>
    requires Valid(from) && Valid(upto)
  {
    match Prepopulated(from, upto, groupType)
    case Err(e) => Err(e)
    case Ok(keys) => Ok(ZeroMap(keys))
  }

  /** The `while current_date <= dt_upto` loop: every visited position's bucket set to zero. */
  method PrepopulateBuckets(dtFrom: DateTime, dtUpto: DateTime, groupType: string) returns (r: Result<map<string, int>>)
    requires Valid(dtFrom) && Valid(dtUpto)
    ensures r == PrepopulatedMap(dtFrom, dtUpto, groupType)
  {
    var grouped: map<string, int> := map[];
    ghost var written: seq<string> := [];
    var current := dtFrom;
    PrependNothing(Prepopulated(dtFrom, dtUpto, groupType));
    while LessEq(current, dtUpto)
      invariant Valid(current)
      invariant grouped == ZeroMap(written)
      invariant Prepopulated(dtFrom, dtUpto, groupType) == Prepend(written, Prepopulated(current, dtUpto, groupType))
      decreases TotalSeconds(dtUpto) - TotalSeconds(current)
    {
      OrderMatchesTimeline(current, dtUpto);
      var step := GroupKeyAndNext(current, groupType);
      if step.Err? {
        PrepopulatedStepFails(current, dtUpto, groupType);
        return Err(step.error);
      }
      var (key, next) := step.value;
      OrderMatchesTimeline(current, next);
      PrepopulatedStep(current, dtUpto, groupType, key, next);
      PrependTwice(written, [key], Prepopulated(next, dtUpto, groupType));
      ZeroMapAppend(written, key);
      grouped := grouped[key := 0];
      written := written + [key];
      current := next;
    }
    assert Prepopulated(current, dtUpto, groupType) == Ok([]);
    assert written + [] == written;
    r := Ok(grouped);
  }

  /** The `for payment in data` loop: each in-range payment added to its own bucket. */
  method AccumulatePayments(
    zeroed: map<string, int>, payments: seq<Payment>, dtFrom: DateTime, dtUpto: DateTime, groupType: string)
    returns (r: Result<map<string, int>>)
    requires AllValid(payments)
    ensures r == Accumulate(zeroed, payments, dtFrom, dtUpto, groupType)
  {
    var grouped := zeroed;
    assert payments[..0] == [];
    for i := 0 to |payments|
      invariant Accumulate(zeroed, payments[..i], dtFrom, dtUpto, groupType) == Ok(grouped)
    {
      AccumulateStep(zeroed, payments, i, dtFrom, dtUpto, groupType);
      var added := AddPayment(grouped, payments[i], dtFrom, dtUpto, groupType);
      if added.Err? {
        AccumulateKeepsError(zeroed, payments, i + 1, dtFrom, dtUpto, groupType);
        return added;
      }
      grouped := added.value;
    }
    assert payments[..|payments|] == payments;
    r := Ok(grouped);
  }

  /** One turn of the pre-population loop: the label of the position, then the rest from the step. */
  lemma PrepopulatedStep(current: DateTime, upto: DateTime, groupType: string, key: string, next: DateTime)
    requires Valid(current) && Valid(upto) && LessEq(current, upto)
    requires GroupKeyAndNext(current, groupType) == Ok((key, next))
    ensures Prepopulated(current, upto, groupType) == Prepend([key], Prepopulated(next, upto, groupType))
  {
  }

  /** The body of the `for payment in data` loop: an in-range payment's value added to its bucket. */
  method AddPayment(grouped: map<string, int>, payment: Payment, dtFrom: DateTime, dtUpto: DateTime, groupType: string)
    returns (r: Result<map<string, int>>)
    requires Valid(payment.dt)
    ensures r == AccumulateOne(grouped, payment, dtFrom, dtUpto, groupType)
  {
    if LessEq(dtFrom, payment.dt) && LessEq(payment.dt, dtUpto) {
      var step := GroupKeyAndNext(payment.dt, groupType);
      if step.Err? {
        return Err(step.error);
      }
      var (key, _) := step.value;
      r := Ok(grouped[key := (if key in grouped then grouped[key] else 0) + payment.value]);
    } else {
      r := Ok(grouped);
    }
  }

  lemma PrependNothing(r: Result<seq<string>>)
    ensures Prepend([], r) == r
  {
    if r.Ok? {
      assert [] + r.value == r.value;
    }
  }

  /** A failing step ends the pre-population loop with its error. */
  lemma PrepopulatedStepFails(current: DateTime, upto: DateTime, groupType: string)
    requires Valid(current) && Valid(upto) && LessEq(current, upto)
    requires GroupKeyAndNext(current, groupType).Err?
    ensures Prepopulated(current, upto, groupType) == Err(GroupKeyAndNext(current, groupType).error)
  {
  }

  lemma ZeroMapAppend(keys: seq<string>, key: string)
    ensures ZeroMap(keys + [key]) == ZeroMap(keys)[key := 0]
  {
  }

  lemma PrependTwice(a: seq<string>, b: seq<string>, r: Result<seq<string>>)
    ensures Prepend(a, Prepend(b, r)) == Prepend(a + b, r)
  {
    if r.Ok? {
      assert a + (b + r.value) == (a + b) + r.value;
    }
  }

  /** One more turn of the accumulation loop. */
  lemma AccumulateStep(
    m: map<string, int>, payments: seq<Payment>, i: nat, from: DateTime, upto: DateTime, groupType: string)
    requires AllValid(payments) && i < |payments|
    ensures Accumulate(m, payments[..i + 1], from, upto, groupType) ==
      match Accumulate(m, payments[..i], from, upto, groupType)
      case Err(e) => Err(e)
      case Ok(m') => AccumulateOne(m', payments[i], from, upto, groupType)
  {
    assert payments[..i + 1][..i] == payments[..i];
  }

  lemma {:induction false} AccumulateKeepsError(
    m: map<string, int>, payments: seq<Payment>, n: nat, from: DateTime, upto: DateTime, groupType: string)
    requires AllValid(payments) && n <= |payments|
    requires Accumulate(m, payments[..n], from, upto, groupType).Err?
    ensures Accumulate(m, payments, from, upto, groupType) == Accumulate(m, payments[..n], from, upto, groupType)
    decreases |payments| - n
  {
    if n < |payments| {
      assert payments[..n + 1][..n] == payments[..n];
      AccumulateKeepsError(m, payments, n + 1, from, upto, groupType);
    } else {
      assert payments[..n] == payments;
    }
  }

  /** `sorted(keys)`: the keys in ascending string order. */
  method SortKeys(keys: set<string>) returns (sorted: seq<string>)
    ensures StrictlyAscending(sorted)
    ensures forall key :: key in sorted <==> key in keys
  {
    sorted := [];
    var rest := keys;
    while rest != {}
      invariant rest <= keys
      invariant StrictlyAscending(sorted)
      invariant forall key :: key in sorted <==> key in keys && key !in rest
      decreases |rest|
    {
      var key :| key in rest;
      sorted := Insert(sorted, key);
      rest := rest - {key};
    }
  }

  /** Places `key` into an ascending sequence that lacks it. */
  function Insert(s: seq<string>, key: string): (r: seq<string>)
    requires StrictlyAscending(s) && key !in s
    ensures StrictlyAscending(r)
    ensures forall x :: x in r <==> x in s || x == key
    decreases |s|
  {
    if s == [] then
      [key]
    else if StrLess(key, s[0]) then
      assert forall j :: 0 < j < |s| ==> StrLess(key, s[j]) by {
        forall j | 0 < j < |s| {
          StrLessTransitive(key, s[0], s[j]);
        }
      }
      [key] + s
    else
      StrLessTotal(key, s[0]);
      var tail := Insert(s[1..], key);
      assert forall j :: 0 <= j < |tail| ==> StrLess(s[0], tail[j]) by {
        forall j | 0 <= j < |tail|
          ensures StrLess(s[0], tail[j])
        {
          assert tail[j] in tail;
          if tail[j] != key {
            var k :| 0 <= k < |s[1..]| && s[1..][k] == tail[j];
            assert s[k + 1] == tail[j];
          }
        }
      }
      [s[0]] + tail
  }
}
