/** The daily chart of `GetDailyImage`: the per-hour minimum prices of the most recent
    hours that have samples, labelled with hours counted back from the current local
    hour, and the date shown under at most two of them. Dates are "today" and
    "yesterday" tags; the current hour is a parameter. */
module Daily {
  import opened Schema
  import opened Wrappers
  import opened Grouping

  /** The `LIMIT` of the hourly query. */
  const WindowRows: nat := 25

  datatype DayTag = Yesterday | Today

  /** One x-axis label: `HH:00` and the date it belongs to. */
  datatype HourLabel = HourLabel(hour: int, day: DayTag)

  datatype DailyChart = DailyChart(labels: seq<HourLabel>, points: seq<real>)

  /** The hourly query, `ORDER BY timestamp DESC LIMIT 25` and then reversed: the most
      recent hour groups, oldest first. */
  function DailyRows(h: seq<Sample>): (rows: seq<Row>)
    ensures |rows| <= WindowRows
  {
    var all := GroupBy(h, ByHour);
    all[WindowStart(|all|)..]
  }

  /** Where the last (at most) 25 of `count` ascending rows begin. */
  function WindowStart(count: nat): nat {
    if count <= WindowRows then 0 else count - WindowRows
  }

  /** JavaScript's `%`: the remainder has the sign of the dividend. */
  function JsRem(a: int, b: int): int
    requires b > 0
  {
    if a >= 0 then a % b else -((-a) % b)
  }

  /** The label the `map` callback builds for index `idx` before the reverse. */
  function LabelAt(currHour: int, idx: int): (shown: HourLabel)
    ensures 0 <= currHour + 24 - idx ==> 0 <= shown.hour < 24
  {
    var offset := currHour + 24 - idx;
    HourLabel(JsRem(offset, 24), if (offset as real) / 24.0 < 1.0 then Yesterday else Today)
  }

  function Reverse<T>(s: seq<T>): (r: seq<T>)
    ensures |r| == |s|
    ensures forall i :: 0 <= i < |s| ==> r[i] == s[|s| - 1 - i]
  {
    if s == [] then []
    else
      var tail := Reverse(s[1..]);
      assert forall i :: 0 <= i < |tail| ==> tail[i] == s[|s| - 1 - i];
      tail + [s[0]]
  }

  /** The labels of a chart with `n` points. */
  function DailyLabels(n: nat, currHour: int): (labels: seq<HourLabel>)
    ensures |labels| == n
  {
    Reverse(seq(n, idx => LabelAt(currHour, idx)))
  }

  /** The chart's labels and data series for the history table at local hour `currHour`. */
  function GetDailyImage(h: seq<Sample>, currHour: int): (chart: DailyChart)
    ensures |chart.labels| == |chart.points| <= WindowRows
  {
    var rows := DailyRows(h);
    DailyChart(DailyLabels(|rows|, currHour), seq(|rows|, i requires 0 <= i < |rows| => rows[i].price))
  }

  /** Math.floor((N - currHour) / 2) - 1: the middle of the first `N - currHour` positions. */
  function IndexOne(n: nat, currHour: int): int {
    (n - currHour) / 2 - 1
  }

  /** Math.floor(currHour / 2) + (N - currHour) - 1: the middle of the last `currHour` positions. */
  function IndexTwo(n: nat, currHour: int): int {
    currHour / 2 + (n - currHour) - 1
  }

  /** The two positions the x2 tick callback writes a date under, after its two
      "off the chart" fallbacks to the centre index. */
  function DateTickIndices(n: nat, currHour: int): (ticks: (int, int))
    ensures ticks.0 == IndexOne(n, currHour) || ticks.0 == n / 2 - 1
    ensures ticks.1 == IndexTwo(n, currHour) || ticks.1 == n / 2 - 1
    ensures 0 <= IndexOne(n, currHour) <= n && 0 <= IndexTwo(n, currHour) <= n ==>
      ticks == (IndexOne(n, currHour), IndexTwo(n, currHour))
  {
    var indexOne := IndexOne(n, currHour);
    var indexTwo := IndexTwo(n, currHour);
    var indexTwo' := if indexOne < 0 || indexOne > n then n / 2 - 1 else indexTwo;
    var indexOne' := if indexTwo' < 0 || indexTwo' > n then n / 2 - 1 else indexOne;
    (indexOne', indexTwo')
  }

  predicate ShowsDate(n: nat, currHour: int, k: int) {
    var (one, two) := DateTickIndices(n, currHour);
    k == one || k == two
  }

  /** What the x2 tick callback returns at position `k`: the date part of the label there, or nothing. */
  function DateTick(labels: seq<HourLabel>, currHour: int, k: int): (tick: Option<DayTag>)
    requires 0 <= k < |labels|
    ensures tick.Some? ==> tick.value == labels[k].day
  {
    if ShowsDate(|labels|, currHour, k) then Some(labels[k].day) else None
  }

  /** The series holds the minimum prices of the at most 25 most recent hours that have
      samples, in ascending hour order and without gap entries: its length is the lesser
      of 25 and the number of such hours. */
  lemma DailyWindow(h: seq<Sample>)
    ensures StrictlyAscending(DailyRows(h))
    ensures |DailyRows(h)| == (if |SampleKeys(h, ByHour)| <= WindowRows then |SampleKeys(h, ByHour)| else WindowRows)
    ensures forall i :: 0 <= i < |DailyRows(h)| ==> MinPrice(h, ByHour, DailyRows(h)[i].key) == Some(DailyRows(h)[i].price)
  {
    var all := GroupBy(h, ByHour);
    var start := WindowStart(|all|);
    var rows := DailyRows(h);
    assert rows == all[start..];
    GroupByRows(h, ByHour);
    assert |all| == |SampleKeys(h, ByHour)|;
    assert |rows| == |all| - start;
    NewestSuffix(all, start);
    forall i | 0 <= i < |rows|
      ensures MinPrice(h, ByHour, rows[i].key) == Some(rows[i].price)
    {
      assert rows[i] == all[start + i];
    }
  }

  /** Every hour with samples that the series leaves out is older than every hour it shows. */
  lemma DailyDropsOnlyOlder(h: seq<Sample>)
    ensures forall i, j :: 0 <= i < |h| && 0 <= j < |DailyRows(h)| && GroupKey(ByHour, h[i].timestamp) !in RowKeys(DailyRows(h)) ==>
      GroupKey(ByHour, h[i].timestamp) < DailyRows(h)[j].key
  {
    var all := GroupBy(h, ByHour);
    GroupByRows(h, ByHour);
    NewestSuffix(all, WindowStart(|all|));
    forall i | 0 <= i < |h| ensures GroupKey(ByHour, h[i].timestamp) in RowKeys(all) {
      assert GroupKey(ByHour, h[i].timestamp) in SampleKeys(h, ByHour);
    }
  }

  /** A suffix of a sorted result is sorted, and every key it drops is older than every key it keeps. */
  lemma NewestSuffix(all: seq<Row>, start: nat)
    requires StrictlyAscending(all) && start <= |all|
    ensures StrictlyAscending(all[start..])
    ensures forall key, j :: key in RowKeys(all) && key !in RowKeys(all[start..]) && 0 <= j < |all| - start ==>
      key < all[start..][j].key
  {
    var rows := all[start..];
    assert forall t :: 0 <= t < |rows| ==> rows[t] == all[start + t];
    forall key, j | key in RowKeys(all) && key !in RowKeys(rows) && 0 <= j < |rows|
      ensures key < rows[j].key
    {
      var a :| 0 <= a < |all| && all[a].key == key;
      assert forall t :: start <= t < |all| ==> all[t].key in RowKeys(rows) by {
        forall t | start <= t < |all| ensures all[t].key in RowKeys(rows) {
          assert rows[t - start] == all[t];
        }
      }
      assert a < start;
      assert all[a].key < all[start + j].key;
    }
  }

  /** The label at position `k` names the hour `N - 1 - k` hours before the current hour,
      wrapping past midnight onto yesterday: it is dated yesterday exactly when that many
      hours reach back past midnight, and its hour is then 24 more. */
  lemma DailyLabelAt(n: nat, currHour: int, k: nat)
    requires 0 <= currHour < 24 && n <= WindowRows && k < n
    ensures var shown := DailyLabels(n, currHour)[k];
      && (shown.day == Yesterday <==> n - 1 - k > currHour)
      && shown.hour == (if n - 1 - k > currHour then currHour + 24 else currHour) - (n - 1 - k)
      && 0 <= shown.hour < 24
  {
    var back := n - 1 - k;
    var offset := currHour + 24 - back;
    assert DailyLabels(n, currHour)[k] == LabelAt(currHour, back);
    assert 0 <= offset < 48;
    if offset < 24 {
      assert JsRem(offset, 24) == offset;
    } else {
      assert JsRem(offset, 24) == offset - 24;
    }
    assert (offset as real) / 24.0 < 1.0 <==> offset < 24;
  }

  /** The last position is the current hour, dated today. */
  lemma LastLabelIsCurrentHour(n: nat, currHour: int)
    requires 0 <= currHour < 24 && 1 <= n <= WindowRows
    ensures DailyLabels(n, currHour)[n - 1] == HourLabel(currHour, Today)
  {
    DailyLabelAt(n, currHour, n - 1);
  }

  /** Neighbouring labels are consecutive hours, and the date moves from yesterday to
      today exactly where the hour wraps to 00 and never back. */
  lemma ConsecutiveLabels(n: nat, currHour: int, k: nat)
    requires 0 <= currHour < 24 && n <= WindowRows && k + 1 < n
    ensures var labels := DailyLabels(n, currHour);
      && labels[k + 1].hour == (if labels[k].hour == 23 then 0 else labels[k].hour + 1)
      && (labels[k].day != labels[k + 1].day <==> labels[k + 1].hour == 0)
      && (labels[k].day == Today ==> labels[k + 1].day == Today)
  {
    DailyLabelAt(n, currHour, k);
    DailyLabelAt(n, currHour, k + 1);
  }

  /** The `> N` halves of the range checks never fire: both computed indices lie below N. */
  lemma DateTickUpperChecksIdle(n: nat, currHour: int)
    requires 0 <= currHour
    ensures IndexOne(n, currHour) < n
    ensures IndexTwo(n, currHour) < n
  {
  }

  /** With at least one position dated yesterday (`N - 1 - currHour >= 1`), the dates sit
      at the two computed indices: the first among the positions dated yesterday and
      showing yesterday's date, the second among those dated today and showing today's. */
  lemma DateTicksSplitDays(n: nat, currHour: int)
    requires 0 <= currHour < 24 && currHour + 2 <= n <= WindowRows
    ensures DateTickIndices(n, currHour) == (IndexOne(n, currHour), IndexTwo(n, currHour))
    ensures 0 <= IndexOne(n, currHour) < n - 1 - currHour <= IndexTwo(n, currHour) < n
    ensures var labels := DailyLabels(n, currHour);
      && DateTick(labels, currHour, IndexOne(n, currHour)) == Some(Yesterday)
      && DateTick(labels, currHour, IndexTwo(n, currHour)) == Some(Today)
  {
    DailyLabelAt(n, currHour, IndexOne(n, currHour));
    DailyLabelAt(n, currHour, IndexTwo(n, currHour));
  }

  /** With no position dated yesterday (`N <= currHour + 1`), and at least two points,
      one date is shown, at the centre index `floor(N / 2) - 1`, and it is today's. */
  lemma DateTicksCentred(n: nat, currHour: int)
    requires 0 <= currHour < 24 && 2 <= n < currHour + 2 && n <= WindowRows
    ensures forall k :: 0 <= k < n ==> (ShowsDate(n, currHour, k) <==> k == n / 2 - 1)
    ensures DateTick(DailyLabels(n, currHour), currHour, n / 2 - 1) == Some(Today)
  {
    DailyLabelAt(n, currHour, n / 2 - 1);
  }

  /** A chart with fewer than two points shows no date at all. */
  lemma DateTicksNone(n: nat, currHour: int)
    requires 0 <= currHour && n < 2
    ensures forall k :: 0 <= k < n ==> !ShowsDate(n, currHour, k)
  {
  }

  /** The chart has one label per point, as many points as the window has hours, and
      point `i` is the minimum price of the window's `i`-th hour. */
  lemma DailyImageSeries(h: seq<Sample>, currHour: int)
    ensures var chart := GetDailyImage(h, currHour);
      && |chart.points| == |chart.labels| == |DailyRows(h)|
      && |chart.points| == (if |SampleKeys(h, ByHour)| <= WindowRows then |SampleKeys(h, ByHour)| else WindowRows)
      && forall i :: 0 <= i < |chart.points| ==> MinPrice(h, ByHour, DailyRows(h)[i].key) == Some(chart.points[i])
  {
    DailyWindow(h);
  }

  /** The labels are positional: when the hours of the data are consecutive and the newest
      is the current hour (on a clock whose local hour is the UTC hour), every label names
      the hour of its data point. Other data can match by chance, e.g. hours that are a day
      and one hour apart. */
  lemma LabelsMatchContiguousHours(rows: seq<Row>, currHour: int)
    requires 0 <= currHour < 24 && 1 <= |rows| <= WindowRows
    requires rows[|rows| - 1].key % 24 == currHour
    requires forall i :: 0 <= i < |rows| ==> rows[i].key == rows[|rows| - 1].key - (|rows| - 1 - i)
    ensures forall i :: 0 <= i < |rows| ==> DailyLabels(|rows|, currHour)[i].hour == rows[i].key % 24
  {
    var n := |rows|;
    var newest := rows[n - 1].key;
    forall i | 0 <= i < n
      ensures DailyLabels(n, currHour)[i].hour == rows[i].key % 24
    {
      DailyLabelAt(n, currHour, i);
      var back := n - 1 - i;
      var q := newest / 24;
      assert newest == 24 * q + currHour;
      if back <= currHour {
        HourOfKey(q, currHour - back);
      } else {
        HourOfKey(q - 1, currHour + 24 - back);
      }
    }
  }

  /** The key `24 * q + r` with `r` in 0..23 is hour `r` of its day. */
  lemma HourOfKey(q: int, r: int)
    requires 0 <= r < 24
    ensures (24 * q + r) % 24 == r
  {
  }
}
