/** The two chart queries' `GROUP BY ... min(price)` over the history table.
    A group key is an integer: the UTC hour (`strftime("%Y-%m-%d %H")`) for the daily
    chart, or the UTC date together with `hour / 4` for the weekly chart. The grouped
    result is an association list sorted by key, and `MinPrice` is the reference
    definition of one group's `min(price)`. */
module Grouping {
  import opened Schema
  import opened Wrappers

  const MsPerHour: nat := 3600000
  const MsPerDay: nat := 86400000
  const HoursPerDay: nat := 24
  /** Width in hours of one weekly bucket (`CAST(strftime("%H") AS integer) / 4`). */
  const BucketHours: nat := 4
  /** Buckets a day splits into under `hour / 4`. */
  const BucketsPerDay: nat := 6

  /** The UTC date of a timestamp, as a day number since the epoch. */
  function Day(ts: nat): nat {
    ts / MsPerDay
  }

  /** The UTC hour of the day of a timestamp. */
  function HourOfDay(ts: nat): nat {
    (ts / MsPerHour) % HoursPerDay
  }

  /** The weekly bucket of a timestamp: its hour of the day divided by 4. */
  function Bucket(ts: nat): nat {
    HourOfDay(ts) / BucketHours
  }

  /** Which of the two queries' keys a sample is grouped by. */
  datatype GroupKind = ByHour | ByDateBucket

  /** The weekly key `date-bucket`, packed into one integer. */
  function DateBucketKey(day: int, bucket: int): int {
    day * BucketsPerDay + bucket
  }

  function GroupKey(g: GroupKind, ts: nat): int {
    match g
    case ByHour => ts / MsPerHour
    case ByDateBucket => DateBucketKey(Day(ts), Bucket(ts))
  }

  predicate InGroup(g: GroupKind, s: Sample, k: int) {
    GroupKey(g, s.timestamp) == k
  }

  /** The hour key names exactly one UTC date: the date part of `%Y-%m-%d %H` is the key
      divided by 24 (its hour part is the key modulo 24, which is `HourOfDay`). */
  lemma HourKeyNamesDateAndHour(ts: nat)
    ensures GroupKey(ByHour, ts) / HoursPerDay == Day(ts)
  {
    var hours := ts / MsPerHour;
    var q := hours / HoursPerDay;
    var r := ts % MsPerHour;
    assert ts == hours * MsPerHour + r;
    assert hours == q * HoursPerDay + hours % HoursPerDay;
    assert ts == q * MsPerDay + ((hours % HoursPerDay) * MsPerHour + r);
    assert 0 <= (hours % HoursPerDay) * MsPerHour + r < MsPerDay;
  }

  /** Every hour group of the daily chart lies inside one bucket group of the weekly chart:
      the weekly key is determined by the hour key alone. */
  lemma HourGroupInsideBucket(ts: nat)
    ensures GroupKey(ByDateBucket, ts) ==
      DateBucketKey(GroupKey(ByHour, ts) / HoursPerDay, (GroupKey(ByHour, ts) % HoursPerDay) / BucketHours)
  {
    HourKeyNamesDateAndHour(ts);
  }

  /** A weekly key names one date and one bucket: different dates or buckets never share a key. */
  lemma DateBucketKeyInjective(d1: int, b1: int, d2: int, b2: int)
    requires 0 <= b1 < BucketsPerDay && 0 <= b2 < BucketsPerDay
    ensures DateBucketKey(d1, b1) == DateBucketKey(d2, b2) <==> d1 == d2 && b1 == b2
  {
    if d1 < d2 {
      assert DateBucketKey(d1, b1) < DateBucketKey(d2, b2) by {
        assert d1 * BucketsPerDay + BucketsPerDay <= d2 * BucketsPerDay;
      }
    } else if d2 < d1 {
      assert DateBucketKey(d2, b2) < DateBucketKey(d1, b1) by {
        assert d2 * BucketsPerDay + BucketsPerDay <= d1 * BucketsPerDay;
      }
    }
  }

  /** The bucket of every timestamp is one of the six of its day. */
  lemma BucketInDay(ts: nat)
    ensures Bucket(ts) < BucketsPerDay
  {
  }

  function Min(a: real, b: real): real {
    if a <= b then a else b
  }

  /** Folds one more price into a group's running minimum. */
  function Combine(m: Option<real>, p: real): Option<real> {
    match m
    case None => Some(p)
    case Some(q) => Some(Min(q, p))
  }

  /** `min(price)` of the group with key `k`, `None` when no sample falls in it. */
  function MinPrice(h: seq<Sample>, g: GroupKind, k: int): (m: Option<real>)
    ensures m.None? <==> forall i :: 0 <= i < |h| ==> !InGroup(g, h[i], k)
    ensures m.Some? ==> exists i :: 0 <= i < |h| && InGroup(g, h[i], k) && h[i].price == m.value
    ensures m.Some? ==> forall i :: 0 <= i < |h| && InGroup(g, h[i], k) ==> m.value <= h[i].price
    decreases |h|
  {
    if h == [] then None
    else
      var rest := MinPrice(h[..|h| - 1], g, k);
      var last := h[|h| - 1];
      assert forall i :: 0 <= i < |h| - 1 ==> h[..|h| - 1][i] == h[i];
      if InGroup(g, last, k) then Combine(rest, last.price) else rest
  }

  /** One row of a grouped query: the group key and the group's minimum price. */
  datatype Row = Row(key: int, price: real)

  predicate StrictlyAscending(rows: seq<Row>) {
    forall i, j :: 0 <= i < j < |rows| ==> rows[i].key < rows[j].key
  }

  /** The price stored under `k`, as a `Map.get` on the grouped rows would give it. */
  function Lookup(rows: seq<Row>, k: int): (m: Option<real>)
    ensures m.None? <==> forall i :: 0 <= i < |rows| ==> rows[i].key != k
    ensures m.Some? ==> exists i :: 0 <= i < |rows| && rows[i] == Row(k, m.value)
  {
    if rows == [] then None
    else if rows[0].key == k then Some(rows[0].price)
    else
      assert forall i :: 1 <= i < |rows| ==> rows[i] == rows[1..][i - 1];
      Lookup(rows[1..], k)
  }

  /** In a sorted grouped result every row is the one found under its own key. */
  lemma {:induction false} LookupAt(rows: seq<Row>, i: int)
    requires StrictlyAscending(rows) && 0 <= i < |rows|
    ensures Lookup(rows, rows[i].key) == Some(rows[i].price)
  {
    if i > 0 {
      LookupAt(rows[1..], i - 1);
    }
  }

  /** Looking up in a list with one more row finds the earlier row when there is one. */
  lemma {:induction false} LookupAppend(rows: seq<Row>, r: Row)
    requires StrictlyAscending(rows + [r])
    ensures forall key :: Lookup(rows + [r], key) == (if key == r.key then Some(r.price) else Lookup(rows, key))
  {
    var all := rows + [r];
    forall key
      ensures Lookup(all, key) == if key == r.key then Some(r.price) else Lookup(rows, key)
    {
      if key == r.key {
        LookupAt(all, |rows|);
      } else if Lookup(all, key).Some? {
        var i :| 0 <= i < |all| && all[i] == Row(key, Lookup(all, key).value);
        LookupAt(all, i);
        assert rows[i] == all[i];
        assert Lookup(rows, key) == Some(rows[i].price) by {
          assert StrictlyAscending(rows) by {
            forall a, b | 0 <= a < b < |rows| ensures rows[a].key < rows[b].key {
              assert all[a] == rows[a] && all[b] == rows[b];
            }
          }
          LookupAt(rows, i);
        }
      } else {
        assert forall i :: 0 <= i < |rows| ==> rows[i] == all[i];
      }
    }
  }

  /** Adds one sample to a sorted grouped result, keeping it sorted. */
  function Insert(rows: seq<Row>, k: int, p: real): (r: seq<Row>)
    requires StrictlyAscending(rows)
    ensures StrictlyAscending(r)
    ensures forall key :: Lookup(r, key) == if key == k then Combine(Lookup(rows, k), p) else Lookup(rows, key)
    ensures r != [] && r[0].key == (if rows == [] || k < rows[0].key then k else rows[0].key)
  {
    if rows == [] then [Row(k, p)]
    else if k < rows[0].key then [Row(k, p)] + rows
    else if k == rows[0].key then [Row(k, Min(rows[0].price, p))] + rows[1..]
    else
      var tail := Insert(rows[1..], k, p);
      var r := [rows[0]] + tail;
      assert forall i :: 1 <= i < |r| ==> r[i] == tail[i - 1];
      r
  }

  /** The grouped query: one row per group, ascending by key, each carrying the group's minimum. */
  function GroupBy(h: seq<Sample>, g: GroupKind): (rows: seq<Row>)
    ensures StrictlyAscending(rows)
    ensures forall k :: Lookup(rows, k) == MinPrice(h, g, k)
    decreases |h|
  {
    if h == [] then []
    else
      var last := h[|h| - 1];
      Insert(GroupBy(h[..|h| - 1], g), GroupKey(g, last.timestamp), last.price)
  }

  /** The keys present in a list of rows. */
  function RowKeys(rows: seq<Row>): set<int> {
    set i | 0 <= i < |rows| :: rows[i].key
  }

  /** The group keys that at least one sample falls in. */
  function SampleKeys(h: seq<Sample>, g: GroupKind): set<int> {
    set i | 0 <= i < |h| :: GroupKey(g, h[i].timestamp)
  }

  /** Sorted rows have pairwise distinct keys, so they number as many as their keys. */
  lemma {:induction false} AscendingKeyCount(rows: seq<Row>)
    requires StrictlyAscending(rows)
    ensures |RowKeys(rows)| == |rows|
  {
    if rows != [] {
      var tail := rows[1..];
      AscendingKeyCount(tail);
      assert RowKeys(rows) == {rows[0].key} + RowKeys(tail) by {
        forall key | key in RowKeys(rows) ensures key in {rows[0].key} + RowKeys(tail) {
          var i :| 0 <= i < |rows| && rows[i].key == key;
          if i > 0 { assert tail[i - 1].key == key; }
        }
        forall key | key in RowKeys(tail) ensures key in RowKeys(rows) {
          var i :| 0 <= i < |tail| && tail[i].key == key;
          assert rows[i + 1].key == key;
        }
      }
      assert rows[0].key !in RowKeys(tail);
    }
  }

  /** The grouped result has exactly one row for every group some sample falls in:
      its rows are those groups, each with its minimum price, and there are as many
      rows as such groups. */
  lemma GroupByRows(h: seq<Sample>, g: GroupKind)
    ensures RowKeys(GroupBy(h, g)) == SampleKeys(h, g)
    ensures |GroupBy(h, g)| == |SampleKeys(h, g)|
    ensures forall i :: 0 <= i < |GroupBy(h, g)| ==>
      MinPrice(h, g, GroupBy(h, g)[i].key) == Some(GroupBy(h, g)[i].price)
  {
    var rows := GroupBy(h, g);
    forall i | 0 <= i < |rows|
      ensures MinPrice(h, g, rows[i].key) == Some(rows[i].price)
    {
      LookupAt(rows, i);
    }
    forall key | key in RowKeys(rows) ensures key in SampleKeys(h, g) {
      var i :| 0 <= i < |rows| && rows[i].key == key;
      assert Lookup(rows, key).Some?;
      var j :| 0 <= j < |h| && InGroup(g, h[j], key);
    }
    forall key | key in SampleKeys(h, g) ensures key in RowKeys(rows) {
      var j :| 0 <= j < |h| && GroupKey(g, h[j].timestamp) == key;
      assert InGroup(g, h[j], key);
      assert MinPrice(h, g, key).Some?;
      var i :| 0 <= i < |rows| && rows[i] == Row(key, Lookup(rows, key).value);
    }
    AscendingKeyCount(rows);
  }
}
