/**
 * What `aggregate_data` guarantees, proved about the functions that describe
 * its two loops: which labels the pre-population loop writes, which buckets
 * exist afterwards and what each holds, when the call raises, and that the
 * emitted series is determined by the buckets.
 */
module Properties {
  import opened Calendar
  import opened Labels
  import opened Bucketing
  import opened Aggregation

  // ---------------------------------------------------------------------------
  // The pre-population loop

  /**
   * The loop writes nothing when it starts past `upto`; otherwise it writes
   * the label of its start first, its labels ascend strictly (no bucket is
   * written twice), and each is the label of some instant of the range.
   */
  lemma {:induction false} PrepopulatedLabels(current: DateTime, upto: DateTime, groupType: string, u: Unit)
    requires Valid(current) && Valid(upto) && ParseUnit(groupType) == Some(u)
    requires Prepopulated(current, upto, groupType).Ok?
    ensures var keys := Prepopulated(current, upto, groupType).value;
      && (keys == [] <==> !LessEq(current, upto))
      && (keys != [] ==> keys[0] == Label(current, u))
      && StrictlyAscending(keys)
      && (forall key :: key in keys ==> exists d :: Valid(d) && InRange(d, current, upto) && Label(d, u) == key)
    decreases TotalSeconds(upto) - TotalSeconds(current)
  {
    var keys := Prepopulated(current, upto, groupType).value;
    if LessEq(current, upto) {
      OrderMatchesTimeline(current, upto);
      var step := GroupKeyAndNext(current, groupType);
      var next := step.value.1;
      OrderMatchesTimeline(current, next);
      PrepopulatedLabels(next, upto, groupType, u);
      var rest := Prepopulated(next, upto, groupType).value;
      assert keys == [Label(current, u)] + rest;
      if rest != [] {
        StepAdvancesLabel(current, groupType, u);
      }
      AscendingCons(Label(current, u), rest);
      forall key | key in keys
        ensures exists d :: Valid(d) && InRange(d, current, upto) && Label(d, u) == key
      {
        LabelWitness(current, next, upto, u, key, rest);
      }
    }
  }

  /** A label of the loop's turn from `current` is the label of an instant of the range. */
  lemma LabelWitness(current: DateTime, next: DateTime, upto: DateTime, u: Unit, key: string, rest: seq<string>)
    requires Valid(current) && Valid(next) && Valid(upto) && LessEq(current, upto) && Less(current, next)
    requires forall k :: k in rest ==> exists d :: Valid(d) && InRange(d, next, upto) && Label(d, u) == k
    requires key in [Label(current, u)] + rest
    ensures exists d :: Valid(d) && InRange(d, current, upto) && Label(d, u) == key
  {
    if key != Label(current, u) {
      assert key in rest;
      var d :| Valid(d) && InRange(d, next, upto) && Label(d, u) == key;
      LessEqTransitive(current, next, d);
    } else {
      assert InRange(current, current, upto);
    }
  }

  /** The last turn of the loop: a position in range whose step is past the end writes only its own label. */
  lemma PrepopulatedLastStep(current: DateTime, upto: DateTime, groupType: string, key: string, next: DateTime)
    requires Valid(current) && Valid(upto) && LessEq(current, upto)
    requires GroupKeyAndNext(current, groupType) == Ok((key, next)) && !LessEq(next, upto)
    ensures Prepopulated(current, upto, groupType) == Ok([key])
  {
    assert Prepopulated(next, upto, groupType) == Ok([]);
    assert [key] + [] == [key];
  }

  /**
   * Started on a bucket boundary (anywhere, for months), the loop writes the
   * label of every instant of the range: no bucket the range touches is missed.
   */
  lemma {:induction false} AlignedStartCoversRange(
    current: DateTime, upto: DateTime, groupType: string, u: Unit, d: DateTime)
    requires ParseUnit(groupType) == Some(u) && Valid(current) && Valid(upto) && Valid(d)
    requires Aligned(current, u) && InRange(d, current, upto)
    requires Prepopulated(current, upto, groupType).Ok?
    ensures Label(d, u) in Prepopulated(current, upto, groupType).value
    decreases TotalSeconds(upto) - TotalSeconds(current)
  {
    LessEqTransitive(current, d, upto);
    OrderMatchesTimeline(current, upto);
    var step := GroupKeyAndNext(current, groupType);
    var next := step.value.1;
    OrderMatchesTimeline(current, next);
    if SameBucket(current, d, u) {
      SameLabelIffSameBucket(current, d, u);
    } else {
      StepReachesNextBucket(current, groupType, u, d);
      AlignedStartCoversRange(next, upto, groupType, u, d);
    }
  }

  /** A range of one instant gets exactly the bucket of that instant. */
  lemma SingleInstantRange(d: DateTime, groupType: string, u: Unit)
    requires Valid(d) && ParseUnit(groupType) == Some(u) && !NoSuccessor(d, u)
    ensures Prepopulated(d, d, groupType) == Ok([Label(d, u)])
  {
    var step := GroupKeyAndNext(d, groupType);
    var next := step.value.1;
    OrderMatchesTimeline(d, next);
    assert Prepopulated(next, d, groupType) == Ok([]);
    assert Prepopulated(d, d, groupType) == Prepend([step.value.0], Ok([]));
    assert [step.value.0] + [] == [Label(d, u)];
  }

  /** The last payment hits `key` exactly when it is in range and falls in that bucket. */
  lemma HitsLast(payments: seq<Payment>, from: DateTime, upto: DateTime, u: Unit, key: string)
    requires AllValid(payments) && payments != []
    ensures var n := |payments| - 1; var p := payments[n];
      Hits(payments, from, upto, u, key) <==>
        Hits(payments[..n], from, upto, u, key) || (InRange(p.dt, from, upto) && Label(p.dt, u) == key)
  {
    var n := |payments| - 1;
    var prefix := payments[..n];
    if Hits(payments, from, upto, u, key) {
      HitsSplit(payments, from, upto, u, key);
    }
    if Hits(prefix, from, upto, u, key) {
      var i :| 0 <= i < n && InRange(prefix[i].dt, from, upto) && Label(prefix[i].dt, u) == key;
      assert payments[i] == prefix[i];
    }
  }

  lemma HitsSplit(payments: seq<Payment>, from: DateTime, upto: DateTime, u: Unit, key: string)
    requires AllValid(payments) && payments != [] && Hits(payments, from, upto, u, key)
    ensures var n := |payments| - 1; var p := payments[n];
      Hits(payments[..n], from, upto, u, key) || (InRange(p.dt, from, upto) && Label(p.dt, u) == key)
  {
    var n := |payments| - 1;
    var i :| 0 <= i < |payments| && InRange(payments[i].dt, from, upto) && Label(payments[i].dt, u) == key;
    if i < n {
      assert payments[..n][i] == payments[i];
    }
  }

  /** A bucket no in-range payment falls in sums to zero. */
  lemma {:induction false} EmptyBucketSumsToZero(
    payments: seq<Payment>, from: DateTime, upto: DateTime, u: Unit, key: string)
    requires AllValid(payments) && !Hits(payments, from, upto, u, key)
    ensures BucketSum(payments, from, upto, u, key) == 0
    decreases |payments|
  {
    if payments != [] {
      HitsLast(payments, from, upto, u, key);
      EmptyBucketSumsToZero(payments[..|payments| - 1], from, upto, u, key);
    }
  }

  /**
   * After the loop, the bucket labelled `key` exists exactly when it existed
   * before or an in-range payment falls in it, and it holds its earlier value
   * plus the values of the in-range payments that fall in it.
   */
  lemma {:induction false} AccumulateBucket(
    m0: map<string, int>, payments: seq<Payment>, from: DateTime, upto: DateTime, groupType: string, u: Unit,
    key: string)
    requires AllValid(payments) && ParseUnit(groupType) == Some(u)
    requires Accumulate(m0, payments, from, upto, groupType).Ok?
    ensures var m := Accumulate(m0, payments, from, upto, groupType).value;
      && (key in m <==> key in m0 || Hits(payments, from, upto, u, key))
      && (key in m ==> m[key] == Get(m0, key) + BucketSum(payments, from, upto, u, key))
    decreases |payments|
  {
    if payments != [] {
      var n := |payments| - 1;
      var prefix, p := payments[..n], payments[n];
      assert AllValid(prefix);
      AccumulateBucket(m0, prefix, from, upto, groupType, u, key);
      HitsLast(payments, from, upto, u, key);
      if !Hits(prefix, from, upto, u, key) {
        EmptyBucketSumsToZero(prefix, from, upto, u, key);
      }
      var before := Accumulate(m0, prefix, from, upto, groupType).value;
      assert Accumulate(m0, payments, from, upto, groupType) == AccumulateOne(before, p, from, upto, groupType);
      AccumulateOneBucket(before, p, from, upto, groupType, u, key);
      var hit := InRange(p.dt, from, upto) && Label(p.dt, u) == key;
      assert BucketSum(payments, from, upto, u, key)
          == BucketSum(prefix, from, upto, u, key) + (if hit then p.value else 0);
    } else {
      assert !Hits(payments, from, upto, u, key);
    }
  }

  /** One turn of the loop touches only the bucket of the payment, and only when the payment is in range. */
  lemma AccumulateOneBucket(
    m: map<string, int>, p: Payment, from: DateTime, upto: DateTime, groupType: string, u: Unit, key: string)
    requires Valid(p.dt) && ParseUnit(groupType) == Some(u)
    requires AccumulateOne(m, p, from, upto, groupType).Ok?
    ensures var m' := AccumulateOne(m, p, from, upto, groupType).value;
      var hit := InRange(p.dt, from, upto) && Label(p.dt, u) == key;
      && (key in m' <==> key in m || hit)
      && (key in m' ==> m'[key] == Get(m, key) + (if hit then p.value else 0))
  {
  }

  /** `AccumulateBucket`, for every bucket at once. */
  lemma AccumulateContents(
    m0: map<string, int>, payments: seq<Payment>, from: DateTime, upto: DateTime, groupType: string, u: Unit)
    requires AllValid(payments) && ParseUnit(groupType) == Some(u)
    requires Accumulate(m0, payments, from, upto, groupType).Ok?
    ensures var m := Accumulate(m0, payments, from, upto, groupType).value;
      forall key ::
        && (key in m <==> key in m0 || Hits(payments, from, upto, u, key))
        && (key in m ==> m[key] == Get(m0, key) + BucketSum(payments, from, upto, u, key))
  {
    forall key {
      AccumulateBucket(m0, payments, from, upto, groupType, u, key);
    }
  }

  /** Payments outside `[from, upto]` change nothing: the loop over only the in-range ones has the same outcome. */
  lemma {:induction false} OutOfRangeIgnored(
    m: map<string, int>, payments: seq<Payment>, from: DateTime, upto: DateTime, groupType: string)
    requires AllValid(payments)
    ensures AllValid(InRangeOnly(payments, from, upto))
    ensures Accumulate(m, payments, from, upto, groupType)
         == Accumulate(m, InRangeOnly(payments, from, upto), from, upto, groupType)
    decreases |payments|
  {
    if payments != [] {
      var n := |payments| - 1;
      var prefix, p := payments[..n], payments[n];
      OutOfRangeIgnored(m, prefix, from, upto, groupType);
      var kept := InRangeOnly(prefix, from, upto);
      if InRange(p.dt, from, upto) {
        assert (kept + [p])[..|kept|] == kept;
      } else {
        assert kept + [] == kept;
      }
    }
  }

  // ---------------------------------------------------------------------------
  // The whole call

  /**
   * The buckets of a successful call: the labels the pre-population loop
   * wrote and those of the in-range payments, nothing else; each holds the sum
   * of the in-range payments that fall in it; the bucket of `from` is always
   * there when the range is not empty.
   */
  lemma GroupedBuckets(from: DateTime, upto: DateTime, groupType: string, u: Unit, payments: seq<Payment>)
    requires Valid(from) && Valid(upto) && AllValid(payments) && ParseUnit(groupType) == Some(u)
    requires Grouped(from, upto, groupType, payments).Ok?
    ensures Prepopulated(from, upto, groupType).Ok?
    ensures var m := Grouped(from, upto, groupType, payments).value;
      var keys := Prepopulated(from, upto, groupType).value;
      && (forall key :: key in m <==> key in keys || Hits(payments, from, upto, u, key))
      && (forall key :: key in m ==> m[key] == BucketSum(payments, from, upto, u, key))
      && (LessEq(from, upto) ==> Label(from, u) in m)
  {
    var keys := Prepopulated(from, upto, groupType).value;
    AccumulateContents(ZeroMap(keys), payments, from, upto, groupType, u);
    PrepopulatedLabels(from, upto, groupType, u);
  }

  /** Filtering out the payments outside the range first does not change the result. */
  lemma GroupedIgnoresOutOfRange(from: DateTime, upto: DateTime, groupType: string, payments: seq<Payment>)
    requires Valid(from) && Valid(upto) && AllValid(payments)
    ensures AllValid(InRangeOnly(payments, from, upto))
    ensures Grouped(from, upto, groupType, payments) == Grouped(from, upto, groupType, InRangeOnly(payments, from, upto))
  {
    if PrepopulatedMap(from, upto, groupType).Ok? {
      OutOfRangeIgnored(PrepopulatedMap(from, upto, groupType).value, payments, from, upto, groupType);
    } else {
      OutOfRangeIgnored(map[], payments, from, upto, groupType);
    }
  }

  /** When `from` is after `upto` the call returns no buckets, whatever the group type. */
  lemma EmptyRange(from: DateTime, upto: DateTime, groupType: string, payments: seq<Payment>)
    requires Valid(from) && Valid(upto) && AllValid(payments)
    requires !LessEq(from, upto)
    ensures Grouped(from, upto, groupType, payments) == Ok(map[])
  {
    GroupedIgnoresOutOfRange(from, upto, groupType, payments);
    var kept := InRangeOnly(payments, from, upto);
    if kept != [] {
      assert kept[0] in kept;
      LessEqTransitive(from, kept[0].dt, upto);
    }
    assert ZeroMap([]) == map[];
  }

  lemma {:induction false} PrepopulatedErrors(current: DateTime, upto: DateTime, groupType: string, u: Unit)
    requires Valid(current) && Valid(upto) && ParseUnit(groupType) == Some(u)
    ensures Prepopulated(current, upto, groupType).Err? ==>
      Prepopulated(current, upto, groupType).error == SuccessorError(u)
    ensures upto.year < MaxYear ==> Prepopulated(current, upto, groupType).Ok?
    decreases TotalSeconds(upto) - TotalSeconds(current)
  {
    if LessEq(current, upto) {
      OrderMatchesTimeline(current, upto);
      var step := GroupKeyAndNext(current, groupType);
      if step.Ok? {
        OrderMatchesTimeline(current, step.value.1);
        PrepopulatedErrors(step.value.1, upto, groupType, u);
      }
    }
  }

  lemma {:induction false} AccumulateErrors(
    m: map<string, int>, payments: seq<Payment>, from: DateTime, upto: DateTime, groupType: string, u: Unit)
    requires AllValid(payments) && ParseUnit(groupType) == Some(u)
    ensures Accumulate(m, payments, from, upto, groupType).Err? ==>
      Accumulate(m, payments, from, upto, groupType).error == SuccessorError(u)
    ensures upto.year < MaxYear ==> Accumulate(m, payments, from, upto, groupType).Ok?
    decreases |payments|
  {
    if payments != [] {
      AccumulateErrors(m, payments[..|payments| - 1], from, upto, groupType, u);
    }
  }

  /**
   * When the call raises: an unsupported group type raises exactly when the
   * range is not empty; a supported one raises only the overflow of its step,
   * and never for a range that ends before year 9999.
   */
  lemma GroupedErrors(from: DateTime, upto: DateTime, groupType: string, payments: seq<Payment>)
    requires Valid(from) && Valid(upto) && AllValid(payments)
    ensures ParseUnit(groupType).None? ==>
      Grouped(from, upto, groupType, payments)
        == if LessEq(from, upto) then Err(UnsupportedGroupType(groupType)) else Ok(map[])
    ensures ParseUnit(groupType).Some? && Grouped(from, upto, groupType, payments).Err? ==>
      Grouped(from, upto, groupType, payments).error == SuccessorError(ParseUnit(groupType).value)
    ensures ParseUnit(groupType).Some? && upto.year < MaxYear ==> Grouped(from, upto, groupType, payments).Ok?
  {
    if !LessEq(from, upto) {
      EmptyRange(from, upto, groupType, payments);
    }
    if ParseUnit(groupType).Some? {
      var u := ParseUnit(groupType).value;
      PrepopulatedErrors(from, upto, groupType, u);
      if Prepopulated(from, upto, groupType).Ok? {
        AccumulateErrors(ZeroMap(Prepopulated(from, upto, groupType).value), payments, from, upto, groupType, u);
      }
    }
  }

  // ---------------------------------------------------------------------------
  // The emitted series

  /** The series is determined by the buckets: equal maps give equal series. */
  lemma EmissionIsDeterministic(s1: Series, s2: Series, grouped: map<string, int>)
    requires Emits(s1, grouped) && Emits(s2, grouped)
    ensures s1 == s2
  {
    AscendingIsUnique(s1.labels, s2.labels);
    assert s1.dataset == s2.dataset;
  }

  /**
   * Read off the series: the labels are the buckets of a successful call in
   * ascending order, the `i`-th sum is the sum of the in-range payments in
   * the `i`-th bucket, and a later label is the bucket of a later time.
   */
  lemma SeriesHoldsBucketSums(
    series: Series, from: DateTime, upto: DateTime, groupType: string, u: Unit, payments: seq<Payment>)
    requires Valid(from) && Valid(upto) && AllValid(payments) && ParseUnit(groupType) == Some(u)
    requires Grouped(from, upto, groupType, payments).Ok?
    requires Emits(series, Grouped(from, upto, groupType, payments).value)
    ensures Prepopulated(from, upto, groupType).Ok?
    ensures |series.dataset| == |series.labels|
    ensures forall key :: key in series.labels <==>
      key in Prepopulated(from, upto, groupType).value || Hits(payments, from, upto, u, key)
    ensures forall i :: 0 <= i < |series.labels| ==>
      series.dataset[i] == BucketSum(payments, from, upto, u, series.labels[i])
    ensures forall i, j, a, b ::
      (0 <= i < j < |series.labels| && Valid(a) && Valid(b)
       && Label(a, u) == series.labels[i] && Label(b, u) == series.labels[j]) ==> Less(a, b)
  {
    GroupedBuckets(from, upto, groupType, u, payments);
    forall i, j, a, b | 0 <= i < j < |series.labels| && Valid(a) && Valid(b)
      && Label(a, u) == series.labels[i] && Label(b, u) == series.labels[j]
      ensures Less(a, b)
    {
      EarlierLabelEarlierInstant(a, b, u);
    }
  }
}
