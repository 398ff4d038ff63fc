/** The weekly chart of `GetWeeklyImage`: seven UTC days ending on the date of the newest
    sample, five four-hour buckets per day, each point the bucket's minimum price or a gap,
    and the date written under the middle bucket of each day. Dates are day numbers. */
module Weekly {
  import opened Schema
  import opened Wrappers
  import opened Grouping

  const Days: nat := 7
  /** Buckets drawn per day: hours 0-19 only, bucket 5 (hours 20-23) is never drawn. */
  const BucketsDrawn: nat := 5
  /** The bucket that carries the day's date label. */
  const LabelledBucket: nat := 2
  const Points: nat := 35

  datatype WeekLabel = DateLabel(day: int) | Blank

  datatype WeeklyChart = WeeklyChart(labels: seq<WeekLabel>, points: seq<Option<real>>)

  /** The first row of `SELECT ... FROM history ORDER BY timestamp DESC`. */
  function Newest(h: seq<Sample>): (s: Sample)
    requires h != []
    ensures exists i :: 0 <= i < |h| && h[i] == s
    ensures forall i :: 0 <= i < |h| ==> h[i].timestamp <= s.timestamp
  {
    if |h| == 1 then h[0]
    else
      var rest := Newest(h[1..]);
      assert forall i :: 1 <= i < |h| ==> h[i] == h[1..][i - 1];
      if h[0].timestamp > rest.timestamp then h[0] else rest
  }

  /** The date drawn as day `d` of the chart (0 the oldest, 6 the newest sample's date). */
  function ChartDay(newestDay: int, d: int): int {
    newestDay - (Days - 1 - d)
  }

  /** Chart position `k` shows bucket `k % 5` of day `k / 5`; this is its point. */
  function WeeklyPoint(h: seq<Sample>, newestDay: int, k: nat): Option<real> {
    MinPrice(h, ByDateBucket, DateBucketKey(ChartDay(newestDay, k / BucketsDrawn), k % BucketsDrawn))
  }

  /** The label at chart position `k`: the day's date under its middle bucket, blank elsewhere. */
  function WeeklyLabel(newestDay: int, k: nat): WeekLabel {
    if k % BucketsDrawn == LabelledBucket then DateLabel(ChartDay(newestDay, k / BucketsDrawn)) else Blank
  }

  lemma PositionSplit(d: nat, j: nat)
    requires j < BucketsDrawn
    ensures (BucketsDrawn * d + j) / BucketsDrawn == d && (BucketsDrawn * d + j) % BucketsDrawn == j
  {
  }

  /** The Map keyed by `date-bucket` that the grouped rows are loaded into. */
  method PriceMapOf(rows: seq<Row>) returns (priceMap: map<int, real>)
    requires StrictlyAscending(rows)
    ensures forall key :: Lookup(rows, key) == if key in priceMap then Some(priceMap[key]) else None
  {
    priceMap := map[];
    for i := 0 to |rows|
      invariant forall key :: Lookup(rows[..i], key) == if key in priceMap then Some(priceMap[key]) else None
    {
      assert rows[..i + 1] == rows[..i] + [rows[i]];
      LookupAppend(rows[..i], rows[i]);
      priceMap := priceMap[rows[i].key := rows[i].price];
    }
    assert rows[..|rows|] == rows;
  }

  /** The point a chart position gets from the Map: the stored price, or a gap. */
  function MapPoint(priceMap: map<int, real>, newestDay: int, k: nat): Option<real> {
    var key := DateBucketKey(ChartDay(newestDay, k / BucketsDrawn), k % BucketsDrawn);
    if key in priceMap then Some(priceMap[key]) else None
  }

  /** The two nested loops over the seven days and five buckets of the past week. */
  method PastWeek(priceMap: map<int, real>, newestDay: int) returns (chart: WeeklyChart)
    ensures |chart.points| == Points && |chart.labels| == Points
    ensures forall k :: 0 <= k < Points ==> chart.points[k] == MapPoint(priceMap, newestDay, k)
    ensures forall k :: 0 <= k < Points ==> chart.labels[k] == WeeklyLabel(newestDay, k)
  {
    var labels: seq<WeekLabel> := [];
    var points: seq<Option<real>> := [];
    for i := 1 to Days + 1
      invariant |points| == |labels| == BucketsDrawn * (i - 1)
      invariant forall k :: 0 <= k < |points| ==> points[k] == MapPoint(priceMap, newestDay, k)
      invariant forall k :: 0 <= k < |labels| ==> labels[k] == WeeklyLabel(newestDay, k)
    {
      var currDate := newestDay - (Days - i);
      for j := 0 to BucketsDrawn
        invariant |points| == |labels| == BucketsDrawn * (i - 1) + j
        invariant forall k :: 0 <= k < |points| ==> points[k] == MapPoint(priceMap, newestDay, k)
        invariant forall k :: 0 <= k < |labels| ==> labels[k] == WeeklyLabel(newestDay, k)
      {
        PositionSplit(i - 1, j);
        var key := DateBucketKey(currDate, j);
        if key in priceMap {
          points := points + [Some(priceMap[key])];
        } else {
          points := points + [None];
        }
        if j == LabelledBucket {
          labels := labels + [DateLabel(currDate)];
        } else {
          labels := labels + [Blank];
        }
      }
    }
    chart := WeeklyChart(labels, points);
  }

  /** Builds the weekly chart from the history table. An empty table has no newest row;
      the source then dereferences an undefined row, which is the `None` result here. */
  method GetWeeklyImage(history: seq<Sample>) returns (chart: Option<WeeklyChart>)
    ensures chart.None? <==> history == []
    ensures chart.Some? ==> |chart.value.points| == Points && |chart.value.labels| == Points
    ensures chart.Some? ==> forall k :: 0 <= k < Points ==>
      chart.value.points[k] == WeeklyPoint(history, Day(Newest(history).timestamp), k)
    ensures chart.Some? ==> forall k :: 0 <= k < Points ==>
      chart.value.labels[k] == WeeklyLabel(Day(Newest(history).timestamp), k)
  {
    if history == [] {
      return None;
    }
    var newestDay := Day(Newest(history).timestamp);
    var rows := GroupBy(history, ByDateBucket);
    var priceMap := PriceMapOf(rows);
    var week := PastWeek(priceMap, newestDay);
    chart := Some(week);
  }

  /** The sample was taken on UTC date `day` in four-hour bucket `j`. */
  predicate InDayBucket(s: Sample, day: int, j: int) {
    Day(s.timestamp) == day && Bucket(s.timestamp) == j
  }

  /** Chart position `5 * d + j` is bucket `j` of chart day `d`, and its label is that
      day's date exactly when `j` is the middle bucket. */
  lemma WeeklyLabelsMarkDays(newestDay: int, d: nat, j: nat)
    requires d < Days && j < BucketsDrawn
    ensures WeeklyLabel(newestDay, BucketsDrawn * d + j) ==
      (if j == LabelledBucket then DateLabel(newestDay - (Days - 1 - d)) else Blank)
  {
    PositionSplit(d, j);
  }

  /** The point of bucket `j` on chart day `d` is a gap exactly when no sample has that
      UTC date and that four-hour bucket, and otherwise the least price among them;
      nothing is carried over from a neighbouring bucket. */
  lemma WeeklyPointIsBucketMinimum(h: seq<Sample>, newestDay: int, d: nat, j: nat)
    requires d < Days && j < BucketsDrawn
    ensures var m := WeeklyPoint(h, newestDay, BucketsDrawn * d + j);
      && (m.None? <==> forall i :: 0 <= i < |h| ==> !InDayBucket(h[i], ChartDay(newestDay, d), j))
      && (m.Some? ==> exists i :: 0 <= i < |h| && InDayBucket(h[i], ChartDay(newestDay, d), j) && h[i].price == m.value)
      && (m.Some? ==> forall i :: 0 <= i < |h| && InDayBucket(h[i], ChartDay(newestDay, d), j) ==> m.value <= h[i].price)
  {
    PositionSplit(d, j);
    var key := DateBucketKey(ChartDay(newestDay, d), j);
    forall i | 0 <= i < |h|
      ensures InGroup(ByDateBucket, h[i], key) <==> InDayBucket(h[i], ChartDay(newestDay, d), j)
    {
      BucketInDay(h[i].timestamp);
      DateBucketKeyInjective(Day(h[i].timestamp), Bucket(h[i].timestamp), ChartDay(newestDay, d), j);
    }
  }

  /** A sample taken in hours 20-23 changes no point of the chart, whatever the day the
      chart ends on: bucket 5 is never drawn. */
  lemma LateHoursNeverDrawn(h: seq<Sample>, s: Sample)
    requires HourOfDay(s.timestamp) >= 20
    ensures forall newestDay, k :: 0 <= k < Points ==> WeeklyPoint(h + [s], newestDay, k) == WeeklyPoint(h, newestDay, k)
  {
    var all := h + [s];
    assert all[..|all| - 1] == h;
    forall newestDay, k | 0 <= k < Points
      ensures WeeklyPoint(all, newestDay, k) == WeeklyPoint(h, newestDay, k)
    {
      var key := DateBucketKey(ChartDay(newestDay, k / BucketsDrawn), k % BucketsDrawn);
      DateBucketKeyInjective(Day(s.timestamp), Bucket(s.timestamp),
                             ChartDay(newestDay, k / BucketsDrawn), k % BucketsDrawn);
      assert !InGroup(ByDateBucket, s, key);
    }
  }

  /** A sample not newer than the newest one leaves the chart's days where they were. */
  lemma {:induction false} OlderSampleKeepsDays(h: seq<Sample>, s: Sample)
    requires h != [] && s.timestamp <= Newest(h).timestamp
    ensures Newest(h + [s]).timestamp == Newest(h).timestamp
  {
    var all := h + [s];
    var i :| 0 <= i < |h| && h[i] == Newest(h);
    assert all[i] == h[i];
    var j :| 0 <= j < |all| && all[j] == Newest(all);
    if j < |h| { assert all[j] == h[j]; }
  }
}
