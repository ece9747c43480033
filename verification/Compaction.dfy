/**
 What compaction may and may not show: row conservation of one pass, invisibility to coarse
 queries, exactly which steps are coarse enough, and what repeated passes still do.
 */
module Compaction {
  import opened Prelude
  import opened Bucketing
  import opened Catalog
  import opened Store

  // ---- conservation ------------------------------------------------------

  /** Collapsing exchanges each stale group's rows for one row, and touches no other key. */
  lemma CollapsedKeys(t: Table, cutoff: int)
    requires cutoff % BUCKET_MS == 0
    ensures Collapsed(t, cutoff).Keys == (t.Keys - StaleRows(t, cutoff)) + StaleGroups(t, cutoff)
    ensures StaleRows(t, cutoff) <= t.Keys
    ensures (t.Keys - StaleRows(t, cutoff)) !! StaleGroups(t, cutoff)
  {
    hide KindOf, GroupRows, Settled, Aggregate;
    GroupsAligned(t, cutoff);
    hide Groups;
    forall g | g in Groups(t, cutoff)
      ensures GroupOf(g) == g
      ensures Settled(t, g) ==> g in t && forall k :: k in t && GroupOf(k) == g ==> k == g
    {
      GroupIsAligned(t, cutoff, g);
      BucketOfMember(g.ts, g.ts);
      if Settled(t, g) {
        SettledRow(t, g);
      }
    }
    hide GroupOf;
    assert Collapsed(t, cutoff).Keys == (t.Keys - StaleRows(t, cutoff)) + StaleGroups(t, cutoff);
  }

  /** The report accounts for every row: what left is what expired plus what collapsed, less what was written back. */
  lemma ReportConservesRows(t: Table, now: Millis, retentionDays: nat)
    ensures var report := Report(t, now, retentionDays);
      |t| - |Maintained(t, now, retentionDays)| ==
      report.rowsExpired + report.rowsCollapsed - report.bucketsRewritten
  {
    hide FloorTo, Collapsed, StaleRows, StaleGroups, Expiry;
    CutoffAligned(now);
    var expiry := Expiry(now, retentionDays);
    var live := Expire(t, expiry);
    CollapsedKeys(live, Cutoff(now));
    assert live.Keys == t.Keys - ExpiredKeys(t, expiry);
    assert ExpiredKeys(t, expiry) <= t.Keys;
    var after := Maintained(t, now, retentionDays);
    assert |after| == |after.Keys| && |t| == |t.Keys| && |live| == |live.Keys|;
    assert |live.Keys - StaleRows(live, Cutoff(now))| == |live.Keys| - |StaleRows(live, Cutoff(now))|;
  }

  lemma CutoffAligned(now: Millis)
    ensures Cutoff(now) % BUCKET_MS == 0
    ensures Cutoff(now) <= now - RAW_WINDOW_MS
  {
    FloorBounds(now - RAW_WINDOW_MS, BUCKET_MS);
  }

  /** A pass leaves recent rows alone and never creates a row in a bucket that kept none. */
  lemma PassTouchesOnlyOldBuckets(t: Table, now: Millis, retentionDays: nat, k: Key)
    ensures k.ts >= Max(Cutoff(now), Expiry(now, retentionDays)) ==>
      var after := Maintained(t, now, retentionDays);
      (k in after <==> k in t) && (k in t ==> after[k] == t[k])
    ensures k in Maintained(t, now, retentionDays) ==>
      exists s :: s in t && GroupOf(s) == GroupOf(k) && s.ts >= Expiry(now, retentionDays)
  {
    hide KindOf, FloorTo, Aggregate, Collapsed, Expiry, GroupRows;
    CutoffAligned(now);
    var live := Expire(t, Expiry(now, retentionDays));
    CollapsedMeaning(live, Cutoff(now), k);
    if k in Maintained(t, now, retentionDays) {
      if k.ts >= Cutoff(now) {
        assert k in t && GroupOf(k) == GroupOf(k);
      } else {
        var s := GroupHasRow(live, k);
        BucketOfMember(k.ts, k.ts);
      }
    }
  }

  // ---- compaction is bucketing ----------------------------------------------

  ghost predicate Aligned(x: int) {
    x % BUCKET_MS == 0
  }

  /** One bucket below the cutoff, after collapsing. */
  lemma CollapsedCell(t: Table, cutoff: int, instance: string, series: string, start: int)
    requires Aligned(cutoff) && Aligned(start) && start < cutoff
    ensures var cell := RowsIn(t, instance, series, start, start + BUCKET_MS);
      RowsIn(Collapsed(t, cutoff), instance, series, start, start + BUCKET_MS) ==
      if cell == [] then [] else [Stamped(start, Aggregate(KindOf(series), cell))]
  {
    hide KindOf, Aggregate, Collapsed, RowsIn;
    var after := Collapsed(t, cutoff);
    var end := start + BUCKET_MS;
    forall ts: nat | start <= ts < end
      ensures Key(instance, series, ts) in after <==>
        ts == start && RowsIn(t, instance, series, start, end) != []
    {
      AlignedBelow(start, cutoff);
      CollapsedMeaning(t, cutoff, Key(instance, series, ts));
    }
    if start < 0 || RowsIn(t, instance, series, start, end) == [] {
      if start < 0 {
        AlignedBelow(start, 0);
        RowsNone(t, instance, series, start, end);
      }
      RowsNone(after, instance, series, start, end);
    } else {
      var k := Key(instance, series, start);
      CollapsedMeaning(t, cutoff, k);
      RowsNext(after, instance, series, start, start, end);
      RowsNone(after, instance, series, start + 1, end);
    }
  }

  /** Points that all fall in one bucket become that bucket's one point. */
  lemma OneBucket(points: seq<Point>, start: int, width: int, kind: Kind)
    requires width > 0 && points != []
    requires forall p :: p in points ==> FloorTo(p.ts, width) == start
    ensures Buckets(points, width, kind) == [Point(start, Summary(kind, points))]
  {
    hide FloorTo, Summary;
    assert forall i :: 0 <= i < |points| ==> points[i] in points;
    RunWhole(points, start, width);
    assert points == points + [];
    BucketsStep(points, points, [], width, kind);
  }

  /** A collapsed row stands for its bucket's bucketed points. */
  lemma CollapsedCellPoints(t: Table, cutoff: int, instance: string, series: string, start: int)
    requires Aligned(cutoff) && Aligned(start) && start < cutoff
    ensures Points(RowsIn(Collapsed(t, cutoff), instance, series, start, start + BUCKET_MS)) ==
      Buckets(Points(RowsIn(t, instance, series, start, start + BUCKET_MS)), BUCKET_MS, KindOf(series))
  {
    hide KindOf, Collapsed, RowsIn, FloorTo, Summary, Buckets;
    var end := start + BUCKET_MS;
    var cell := RowsIn(t, instance, series, start, end);
    CollapsedCell(t, cutoff, instance, series, start);
    if cell == [] {
      assert Points(cell) == [];
      NoBuckets(BUCKET_MS, KindOf(series));
    } else {
      ScanBounds(t, instance, series, start, end);
      forall p | p in Points(cell)
        ensures FloorTo(p.ts, BUCKET_MS) == start
      {
        FloorUnique(p.ts, start, BUCKET_MS);
      }
      OneBucket(Points(cell), start, BUCKET_MS, KindOf(series));
    }
  }

  /** Scans of neighbouring ranges fall in different buckets. */
  lemma ScansApart(t: Table, instance: string, series: string, lo: int, mid: int, hi: int)
    requires Aligned(mid)
    ensures var a, b := Points(RowsIn(t, instance, series, lo, mid)), Points(RowsIn(t, instance, series, mid, hi));
      a != [] && b != [] ==> FloorTo(a[|a| - 1].ts, BUCKET_MS) != FloorTo(b[0].ts, BUCKET_MS)
  {
    hide RowsIn, FloorTo;
    var a, b := Points(RowsIn(t, instance, series, lo, mid)), Points(RowsIn(t, instance, series, mid, hi));
    ScanBounds(t, instance, series, lo, mid);
    ScanBounds(t, instance, series, mid, hi);
    if a != [] && b != [] {
      assert a[|a| - 1] in a && b[0] in b;
      FloorBounds(a[|a| - 1].ts, BUCKET_MS);
      FloorUnique(mid, mid, BUCKET_MS);
      FloorMonotone(mid, b[0].ts, BUCKET_MS);
    }
  }

  /** Below the cutoff, scanning the compacted table is bucketing the scan of the original. */
  lemma {:induction false} CollapsedScanBelow(t: Table, cutoff: int, instance: string, series: string, lo: int, hi: int)
    requires Aligned(cutoff) && Aligned(lo) && Aligned(hi) && lo <= hi <= cutoff
    ensures Points(RowsIn(Collapsed(t, cutoff), instance, series, lo, hi)) ==
      Buckets(Points(RowsIn(t, instance, series, lo, hi)), BUCKET_MS, KindOf(series))
    decreases hi - lo
  {
    hide KindOf, Collapsed, FloorTo, Buckets;
    if lo == hi {
      NoBuckets(BUCKET_MS, KindOf(series));
    } else {
      hide RowsIn;
      AlignedBelow(lo, hi);
      var mid := lo + BUCKET_MS;
      var after := Collapsed(t, cutoff);
      RowsSplit(t, instance, series, lo, mid, hi);
      RowsSplit(after, instance, series, lo, mid, hi);
      PointsAppend(RowsIn(t, instance, series, lo, mid), RowsIn(t, instance, series, mid, hi));
      PointsAppend(RowsIn(after, instance, series, lo, mid), RowsIn(after, instance, series, mid, hi));
      CollapsedCellPoints(t, cutoff, instance, series, lo);
      CollapsedScanBelow(t, cutoff, instance, series, mid, hi);
      ScansApart(t, instance, series, lo, mid, hi);
      BucketsAppend(Points(RowsIn(t, instance, series, lo, mid)), Points(RowsIn(t, instance, series, mid, hi)),
                    BUCKET_MS, KindOf(series));
    }
  }

  /** From the cutoff up, the compacted table scans as the original. */
  lemma CollapsedScanAbove(t: Table, cutoff: int, instance: string, series: string, lo: int, hi: int)
    requires Aligned(cutoff) && cutoff <= lo
    ensures RowsIn(Collapsed(t, cutoff), instance, series, lo, hi) == RowsIn(t, instance, series, lo, hi)
  {
    hide KindOf, Collapsed, RowsIn, Aggregate;
    forall ts: nat | lo <= ts < hi
      ensures var k := Key(instance, series, ts);
        (k in Collapsed(t, cutoff) <==> k in t) && (k in t ==> Collapsed(t, cutoff)[k] == t[k])
    {
      CollapsedMeaning(t, cutoff, Key(instance, series, ts));
    }
    RowsSame(Collapsed(t, cutoff), t, instance, series, lo, hi);
  }

  /** An aligned window of the compacted table: bucketed up to the cutoff, untouched beyond it. */
  lemma CollapsedScan(t: Table, cutoff: int, instance: string, series: string, lo: int, hi: int, mid: int)
    requires Aligned(cutoff) && Aligned(lo) && Aligned(hi) && lo <= hi
    requires mid == Max(lo, Min(cutoff, hi))
    ensures Points(RowsIn(t, instance, series, lo, hi)) ==
      Points(RowsIn(t, instance, series, lo, mid)) + Points(RowsIn(t, instance, series, mid, hi))
    ensures Points(RowsIn(Collapsed(t, cutoff), instance, series, lo, hi)) ==
      Buckets(Points(RowsIn(t, instance, series, lo, mid)), BUCKET_MS, KindOf(series))
      + Points(RowsIn(t, instance, series, mid, hi))
  {
    hide KindOf, Collapsed, FloorTo, Buckets, RowsIn;
    var after := Collapsed(t, cutoff);
    RowsSplit(t, instance, series, lo, mid, hi);
    RowsSplit(after, instance, series, lo, mid, hi);
    PointsAppend(RowsIn(t, instance, series, lo, mid), RowsIn(t, instance, series, mid, hi));
    PointsAppend(RowsIn(after, instance, series, lo, mid), RowsIn(after, instance, series, mid, hi));
    if cutoff <= lo {
      RowsNone(t, instance, series, lo, mid);
      RowsNone(after, instance, series, lo, mid);
      NoBuckets(BUCKET_MS, KindOf(series));
      assert Points([]) == [];
    } else {
      CollapsedScanBelow(t, cutoff, instance, series, lo, mid);
    }
    if cutoff <= mid {
      CollapsedScanAbove(t, cutoff, instance, series, mid, hi);
    } else {
      RowsNone(t, instance, series, mid, hi);
      RowsNone(after, instance, series, mid, hi);
    }
  }

  /** The steps at which a compacted store must answer as if it had never been compacted. */
  predicate CoarseStep(kind: Kind, stepS: int) {
    match kind
    case Counter => stepS >= 1 && stepS % 60 == 0
    case Gauge => stepS == 60
  }

  /**
   Compaction is invisible to coarse queries: on a bucket-aligned window, a counter answers the same
   at every multiple of 60 s and a gauge at 60 s, wherever the cutoff falls.
   */
  lemma CoarsePointsSame(t: Table, cutoff: int, instance: string, series: string, fromMs: int, toMs: int, stepS: int)
    requires Aligned(cutoff) && Aligned(fromMs) && Aligned(toMs + 1)
    requires CoarseStep(KindOf(series), stepS)
    ensures SeriesAnswer(Collapsed(t, cutoff), instance, series, fromMs, toMs, stepS).points ==
      SeriesAnswer(t, instance, series, fromMs, toMs, stepS).points
  {
    hide KindOf, Collapsed, FloorTo, Buckets, RowsIn;
    var hi := toMs + 1;
    if hi < fromMs {
      RowsNone(t, instance, series, fromMs, hi);
      RowsNone(Collapsed(t, cutoff), instance, series, fromMs, hi);
    } else {
      var mid := Max(fromMs, Min(cutoff, hi));
      CollapsedScan(t, cutoff, instance, series, fromMs, hi, mid);
      var a := Points(RowsIn(t, instance, series, fromMs, mid));
      var b := Points(RowsIn(t, instance, series, mid, hi));
      match KindOf(series) {
        case Counter => CounterPrefixCollapsed(a, b, BUCKET_MS, stepS * 1000);
        case Gauge =>
          PointsOrdered(t, instance, series, fromMs, mid);
          ScansApart(t, instance, series, fromMs, mid, hi);
          GaugePrefixCollapsed(a, b, BUCKET_MS, Gauge);
      }
    }
  }

  /** A compacted range claims no tag the uncompacted range did not carry. */
  lemma CoarseTagsSubset(t: Table, cutoff: int, instance: string, series: string, fromMs: int, toMs: int, stepS: int)
    requires Aligned(cutoff) && Aligned(fromMs) && Aligned(toMs + 1)
    ensures forall tag :: tag in SeriesAnswer(Collapsed(t, cutoff), instance, series, fromMs, toMs, stepS).honesty ==>
      tag in SeriesAnswer(t, instance, series, fromMs, toMs, stepS).honesty
  {
    hide KindOf, Collapsed, RowsIn, FromTag, Resampled;
    var after := Collapsed(t, cutoff);
    var before, later := RowsIn(t, instance, series, fromMs, toMs + 1), RowsIn(after, instance, series, fromMs, toMs + 1);
    TagsMeaning(before);
    TagsMeaning(later);
    hide Tags;
    RowsExact(t, instance, series, fromMs, toMs + 1);
    RowsExact(after, instance, series, fromMs, toMs + 1);
    forall r | r in later
      ensures exists s :: s in before && s.row.honesty == r.row.honesty
    {
      assert StoredIn(after, instance, series, fromMs, toMs + 1, r);
      var k := Key(instance, series, r.ts);
      CollapsedMeaning(t, cutoff, k);
      if k.ts >= cutoff {
        assert StoredIn(t, instance, series, fromMs, toMs + 1, r);
      } else {
        var cell := GroupRows(t, k);
        RowsExact(t, instance, series, k.ts, k.ts + BUCKET_MS);
        var s := cell[|cell| - 1];
        assert s in cell;
        AlignedBelow(k.ts, toMs + 1);
        assert StoredIn(t, instance, series, fromMs, toMs + 1, s);
      }
    }
  }

  // ---- exactly which steps are coarse enough ----------------------------------

  ghost predicate InvisibleAtStep(instance: string, series: string, stepS: int) {
    forall t: Table, cutoff: int, fromMs: int, toMs: int ::
      Aligned(cutoff) && Aligned(fromMs) && Aligned(toMs + 1) ==>
        SeriesAnswer(Collapsed(t, cutoff), instance, series, fromMs, toMs, stepS).points ==
        SeriesAnswer(t, instance, series, fromMs, toMs, stepS).points
  }

  function Plain(value: real): Row {
    Row(value, "metrics", "measured")
  }

  /** A table holding one row. */
  function OneRow(instance: string, series: string, ts: nat, value: real): Table {
    map[Key(instance, series, ts) := Plain(value)]
  }

  lemma OneRowScan(instance: string, series: string, ts: nat, value: real, lo: int, hi: int)
    requires lo <= ts < hi
    ensures RowsIn(OneRow(instance, series, ts, value), instance, series, lo, hi) == [Stamped(ts, Plain(value))]
  {
    hide RowsIn;
    var t := OneRow(instance, series, ts, value);
    RowsNext(t, instance, series, lo, ts, hi);
    RowsNone(t, instance, series, ts + 1, hi);
  }

  lemma SinglePointResampled(point: Point, stepS: int, kind: Kind)
    requires stepS >= 1
    ensures Resampled([point], stepS, kind) ==
      [Point(if stepS > NATIVE_STEP_S then FloorTo(point.ts, stepS * 1000) else point.ts, point.value)]
  {
    hide Summary;
    SingleSummary(kind, point);
    if stepS > NATIVE_STEP_S {
      OneBucket([point], FloorTo(point.ts, stepS * 1000), stepS * 1000, kind);
    }
  }

  /** At a step that is not a whole number of minutes, a single collapsed row answers at the wrong time. */
  lemma FineStepShows(instance: string, series: string, stepS: int)
    requires stepS >= 1 && stepS % 60 != 0
    ensures !InvisibleAtStep(instance, series, stepS)
  {
    hide KindOf, RowsIn, Collapsed, Resampled, FloorTo, Aggregate, SeriesAnswer;
    var ts: nat := stepS * 1000;
    var start := BucketStart(ts);
    BucketStartBounds(ts);
    OneRowAnswer(instance, series, ts, stepS, start + BUCKET_MS);
    OneRowAnswerAfter(instance, series, ts, start, stepS);
    hide BucketStart;
    MinuteMisses(ts, start, stepS);
    Shows(OneRow(instance, series, ts, 1.0), instance, series, start + BUCKET_MS, start + BUCKET_MS - 1, stepS);
  }

  /** A difference in one window is enough. */
  lemma Shows(t: Table, instance: string, series: string, cutoff: int, toMs: int, stepS: int)
    requires Aligned(cutoff) && Aligned(toMs + 1)
    requires SeriesAnswer(Collapsed(t, cutoff), instance, series, 0, toMs, stepS).points !=
      SeriesAnswer(t, instance, series, 0, toMs, stepS).points
    ensures !InvisibleAtStep(instance, series, stepS)
  {
    hide Collapsed, SeriesAnswer;
    assert Aligned(0);
  }

  lemma MinuteMisses(ts: nat, start: nat, stepS: int)
    requires stepS >= 1 && stepS % 60 != 0 && ts == stepS * 1000 && start % BUCKET_MS == 0 && start <= ts
    ensures AnsweredAt(ts, stepS) != AnsweredAt(start, stepS)
  {
    hide FloorTo;
    FloorUnique(ts, ts, ts);
    FloorBounds(start, ts);
    assert start != ts;
  }

  function AnsweredAt(ts: nat, stepS: int): int
    requires stepS >= 1
  {
    if stepS > NATIVE_STEP_S then FloorTo(ts, stepS * 1000) else ts
  }

  lemma OneRowAnswer(instance: string, series: string, ts: nat, stepS: int, hi: int)
    requires stepS >= 1 && ts < hi
    ensures var points := SeriesAnswer(OneRow(instance, series, ts, 1.0), instance, series, 0, hi - 1, stepS).points;
      points != [] && points[0].ts == AnsweredAt(ts, stepS)
  {
    hide KindOf, RowsIn, Resampled, FloorTo;
    OneRowScan(instance, series, ts, 1.0, 0, hi);
    SinglePointResampled(Point(ts, 1.0), stepS, KindOf(series));
    assert Points([Stamped(ts, Plain(1.0))]) == [Point(ts, 1.0)];
  }

  lemma OneRowAnswerAfter(instance: string, series: string, ts: nat, start: nat, stepS: int)
    requires stepS >= 1 && start == BucketStart(ts)
    ensures var after := Collapsed(OneRow(instance, series, ts, 1.0), start + BUCKET_MS);
      var points := SeriesAnswer(after, instance, series, 0, start + BUCKET_MS - 1, stepS).points;
      points != [] && points[0].ts == AnsweredAt(start, stepS)
  {
    hide KindOf, RowsIn, Collapsed, Resampled, FloorTo, Aggregate;
    var t, hi := OneRow(instance, series, ts, 1.0), start + BUCKET_MS;
    BucketStartBounds(ts);
    var after := Collapsed(t, hi);
    OneRowScan(instance, series, ts, 1.0, start, hi);
    CollapsedCell(t, hi, instance, series, start);
    var row := Aggregate(KindOf(series), [Stamped(ts, Plain(1.0))]);
    CollapsedScanPrefixEmpty(t, hi, instance, series, start, ts);
    RowsSplit(after, instance, series, 0, start, hi);
    assert RowsIn(after, instance, series, 0, hi) == [Stamped(start, row)];
    SinglePointResampled(Point(start, row.value), stepS, KindOf(series));
    assert Points([Stamped(start, row)]) == [Point(start, row.value)];
  }

  lemma CollapsedScanPrefixEmpty(t: Table, cutoff: int, instance: string, series: string, start: nat, ts: nat)
    requires Aligned(cutoff) && Aligned(start) && start < cutoff && start <= ts
    requires forall k :: k in t ==> k.ts == ts
    ensures RowsIn(Collapsed(t, cutoff), instance, series, 0, start) == []
  {
    hide KindOf, RowsIn, Collapsed, Aggregate;
    forall s: nat | 0 <= s < start
      ensures Key(instance, series, s) !in Collapsed(t, cutoff)
    {
      var k := Key(instance, series, s);
      CollapsedMeaning(t, cutoff, k);
      if Aligned(s) {
        AlignedBelow(s, start);
        RowsNone(t, instance, series, s, s + BUCKET_MS);
      }
    }
    RowsNone(Collapsed(t, cutoff), instance, series, 0, start);
  }

  /** Two readings in one minute, a third in the next. */
  function ThreeRows(instance: string, series: string): Table {
    map[Key(instance, series, 0) := Plain(0.0),
        Key(instance, series, 1) := Plain(0.0),
        Key(instance, series, BUCKET_MS) := Plain(3.0)]
  }

  lemma ThreeRowsScan(instance: string, series: string)
    ensures var t := ThreeRows(instance, series);
      && RowsIn(t, instance, series, 0, BUCKET_MS) == [Stamped(0, Plain(0.0)), Stamped(1, Plain(0.0))]
      && RowsIn(t, instance, series, BUCKET_MS, 2 * BUCKET_MS) == [Stamped(BUCKET_MS, Plain(3.0))]
  {
    hide RowsIn;
    var t := ThreeRows(instance, series);
    RowsNext(t, instance, series, 0, 0, BUCKET_MS);
    RowsNext(t, instance, series, 1, 1, BUCKET_MS);
    RowsNone(t, instance, series, 2, BUCKET_MS);
    RowsNext(t, instance, series, BUCKET_MS, BUCKET_MS, 2 * BUCKET_MS);
    RowsNone(t, instance, series, BUCKET_MS + 1, 2 * BUCKET_MS);
  }

  lemma SumOfOne(a: Point)
    ensures Sum([a]) == a.value
  {
    assert [a][1..] == [];
  }

  lemma SumOfThree(a: Point, b: Point, c: Point)
    ensures Sum([a, b, c]) == a.value + b.value + c.value
    ensures Sum([a, b]) == a.value + b.value
    ensures Summary(Gauge, [a, b, c]) == (a.value + b.value + c.value) / 3.0
    ensures Summary(Gauge, [a, b]) == (a.value + b.value) / 2.0
  {
    assert [a, b, c][1..] == [b, c] && [b, c][1..] == [c] && [c][1..] == [] && [a, b][1..] == [b] && [b][1..] == [];
    SumOfOne(b);
    SumOfOne(c);
    assert Sum([b, c]) == b.value + c.value;
  }

  lemma OneWideBucket(points: seq<Point>, stepS: int)
    requires points != [] && stepS >= 120
    requires forall p :: p in points ==> 0 <= p.ts <= BUCKET_MS
    ensures Resampled(points, stepS, Gauge) == [Point(0, Summary(Gauge, points))]
  {
    hide FloorTo, Summary, Buckets;
    forall p | p in points
      ensures FloorTo(p.ts, stepS * 1000) == 0
    {
      FloorUnique(p.ts, 0, stepS * 1000);
    }
    OneBucket(points, 0, stepS * 1000, Gauge);
  }

  /** Over more than a minute a gauge's mean of means is not its mean. */
  lemma WideGaugeShows(instance: string, series: string, stepS: int)
    requires KindOf(series) == Gauge && stepS >= 120
    ensures !InvisibleAtStep(instance, series, stepS)
  {
    hide RowsIn, Collapsed, Resampled, FloorTo, KindOf, Summary;
    var t, hi := ThreeRows(instance, series), 2 * BUCKET_MS;
    var after := Collapsed(t, hi);
    ThreeRowsScan(instance, series);
    RowsSplit(t, instance, series, 0, BUCKET_MS, hi);
    RowsSplit(after, instance, series, 0, BUCKET_MS, hi);
    var p, q, r := Point(0, 0.0), Point(1, 0.0), Point(BUCKET_MS, 3.0);
    assert Points([Stamped(0, Plain(0.0)), Stamped(1, Plain(0.0))]) == [p, q];
    assert Points([Stamped(BUCKET_MS, Plain(3.0))]) == [r];
    assert Points(RowsIn(t, instance, series, 0, hi)) == [p, q, r];
    CollapsedCell(t, hi, instance, series, 0);
    CollapsedCell(t, hi, instance, series, BUCKET_MS);
    SumOfThree(p, q, r);
    SumOfThree(p, r, r);
    SingleSummary(Gauge, r);
    assert Points(RowsIn(after, instance, series, 0, hi)) == [p, r];
    OneWideBucket([p, q, r], stepS);
    OneWideBucket([p, r], stepS);
    assert SeriesAnswer(t, instance, series, 0, hi - 1, stepS).points == [Point(0, 1.0)];
    assert SeriesAnswer(after, instance, series, 0, hi - 1, stepS).points == [Point(0, 1.5)];
    Shows(t, instance, series, hi, hi - 1, stepS);
  }

  /** The coarse steps are exactly the steps at which no compaction of any table ever shows. */
  lemma CoarseStepsExact(instance: string, series: string, stepS: int)
    requires stepS >= 1
    ensures InvisibleAtStep(instance, series, stepS) <==> CoarseStep(KindOf(series), stepS)
  {
    hide KindOf, RowsIn, Collapsed, SeriesAnswer;
    if CoarseStep(KindOf(series), stepS) {
      forall t: Table, cutoff: int, fromMs: int, toMs: int | Aligned(cutoff) && Aligned(fromMs) && Aligned(toMs + 1)
        ensures SeriesAnswer(Collapsed(t, cutoff), instance, series, fromMs, toMs, stepS).points ==
          SeriesAnswer(t, instance, series, fromMs, toMs, stepS).points
      {
        CoarsePointsSame(t, cutoff, instance, series, fromMs, toMs, stepS);
      }
    } else if stepS % 60 != 0 {
      FineStepShows(instance, series, stepS);
    } else {
      WideGaugeShows(instance, series, stepS);
    }
  }

  // ---- exactly which windows are wide enough ------------------------------------

  /** A table of one row keeps one row, at its bucket start. */
  lemma OneRowCollapsed(instance: string, series: string, ts: nat, value: real, cutoff: int, k: Key)
    requires Aligned(cutoff) && ts < cutoff
    ensures k in Collapsed(OneRow(instance, series, ts, value), cutoff) <==> k == Key(instance, series, BucketStart(ts))
  {
    hide KindOf, Collapsed, RowsIn, Aggregate, BucketStart;
    var t, start := OneRow(instance, series, ts, value), BucketStart(ts);
    BucketStartBounds(ts);
    CollapsedMeaning(t, cutoff, k);
    if k == Key(instance, series, start) {
      OneRowScan(instance, series, ts, value, start, start + BUCKET_MS);
    } else if k.ts < cutoff && Aligned(k.ts) {
      if k.ts <= ts < k.ts + BUCKET_MS {
        BucketOfMember(k.ts, ts);
      }
      RowsNone(t, k.instance, k.series, k.ts, k.ts + BUCKET_MS);
    }
  }

  ghost predicate InvisibleInWindow(instance: string, series: string, fromMs: int, toMs: int, stepS: int) {
    forall t: Table, cutoff: int :: Aligned(cutoff) ==>
      SeriesAnswer(Collapsed(t, cutoff), instance, series, fromMs, toMs, stepS).points ==
      SeriesAnswer(t, instance, series, fromMs, toMs, stepS).points
  }

  /** A window over no stored instant, or bucket-aligned at both ends; before the epoch nothing is stored. */
  predicate WholeWindow(fromMs: int, toMs: int) {
    toMs < Max(fromMs, 0) || (Max(fromMs, 0) % BUCKET_MS == 0 && (toMs + 1) % BUCKET_MS == 0)
  }

  lemma ResampledEmptiness(points: seq<Point>, stepS: int, kind: Kind)
    ensures Resampled(points, stepS, kind) == [] <==> points == []
  {
  }

  lemma AnswerEmptiness(t: Table, instance: string, series: string, fromMs: int, toMs: int, stepS: int)
    ensures SeriesAnswer(t, instance, series, fromMs, toMs, stepS).points == [] <==>
      RowsIn(t, instance, series, fromMs, toMs + 1) == []
  {
    hide KindOf, RowsIn, Resampled;
    ResampledEmptiness(Points(RowsIn(t, instance, series, fromMs, toMs + 1)), stepS, KindOf(series));
  }

  /** One row at `ts`: compaction moves it across an end of the window its bucket start and it lie on two sides of. */
  lemma CutBucketShows(instance: string, series: string, fromMs: int, toMs: int, stepS: int, ts: nat)
    requires fromMs <= ts <= toMs <==> !(fromMs <= BucketStart(ts) <= toMs)
    ensures !InvisibleInWindow(instance, series, fromMs, toMs, stepS)
  {
    hide KindOf, RowsIn, Collapsed, SeriesAnswer, BucketStart;
    BucketStartBounds(ts);
    var t, start := OneRow(instance, series, ts, 1.0), BucketStart(ts);
    var cutoff := start + BUCKET_MS;
    var after := Collapsed(t, cutoff);
    forall k
      ensures k in after <==> k == Key(instance, series, start)
    {
      OneRowCollapsed(instance, series, ts, 1.0, cutoff, k);
    }
    AnswerEmptiness(t, instance, series, fromMs, toMs, stepS);
    AnswerEmptiness(after, instance, series, fromMs, toMs, stepS);
    if fromMs <= ts <= toMs {
      RowsNext(t, instance, series, fromMs, ts, toMs + 1);
      RowsNone(after, instance, series, fromMs, toMs + 1);
    } else {
      RowsNone(t, instance, series, fromMs, toMs + 1);
      RowsNext(after, instance, series, fromMs, start, toMs + 1);
    }
    assert Aligned(cutoff);
  }

  lemma WholeWindowSame(t: Table, cutoff: int, instance: string, series: string, fromMs: int, toMs: int, stepS: int)
    requires Aligned(cutoff) && WholeWindow(fromMs, toMs) && CoarseStep(KindOf(series), stepS)
    ensures SeriesAnswer(Collapsed(t, cutoff), instance, series, fromMs, toMs, stepS).points ==
      SeriesAnswer(t, instance, series, fromMs, toMs, stepS).points
  {
    hide KindOf, RowsIn, Collapsed, Resampled;
    var after, lo := Collapsed(t, cutoff), Max(fromMs, 0);
    SkipBeforeEpoch(t, instance, series, fromMs, toMs + 1);
    SkipBeforeEpoch(after, instance, series, fromMs, toMs + 1);
    if toMs < lo {
      RowsNone(t, instance, series, lo, Max(toMs + 1, lo));
      RowsNone(after, instance, series, lo, Max(toMs + 1, lo));
    } else {
      CoarsePointsSame(t, cutoff, instance, series, lo, toMs, stepS);
    }
  }

  /** At a coarse step, the windows in which no compaction of any table ever shows are exactly the whole ones. */
  lemma CoarseWindowsExact(instance: string, series: string, fromMs: int, toMs: int, stepS: int)
    requires CoarseStep(KindOf(series), stepS)
    ensures InvisibleInWindow(instance, series, fromMs, toMs, stepS) <==> WholeWindow(fromMs, toMs)
  {
    hide KindOf, RowsIn, Collapsed, SeriesAnswer, CoarseStep, BucketStart;
    if WholeWindow(fromMs, toMs) {
      forall t: Table, cutoff: int | Aligned(cutoff)
        ensures SeriesAnswer(Collapsed(t, cutoff), instance, series, fromMs, toMs, stepS).points ==
          SeriesAnswer(t, instance, series, fromMs, toMs, stepS).points
      {
        WholeWindowSame(t, cutoff, instance, series, fromMs, toMs, stepS);
      }
    } else {
      var ts: nat := if Max(fromMs, 0) % BUCKET_MS != 0 then Max(fromMs, 0) else toMs + 1;
      BucketStartBounds(ts);
      if ts == toMs + 1 && Max(fromMs, 0) % BUCKET_MS == 0 {
        AlignedStart(Max(fromMs, 0), ts);
      }
      CutBucketShows(instance, series, fromMs, toMs, stepS, ts);
    }
  }

  // ---- repeated passes -----------------------------------------------------------

  /** Below the cutoff only bucket starts hold rows. */
  ghost predicate Compact(t: Table, cutoff: int) {
    forall k :: k in t && k.ts < cutoff ==> Aligned(k.ts)
  }

  lemma CollapsedIsCompact(t: Table, cutoff: int)
    requires Aligned(cutoff)
    ensures Compact(Collapsed(t, cutoff), cutoff)
  {
    hide KindOf, Collapsed, GroupRows, Aggregate;
    forall k | k in Collapsed(t, cutoff) && k.ts < cutoff
      ensures Aligned(k.ts)
    {
      CollapsedMeaning(t, cutoff, k);
    }
  }

  /** A compact table has nothing to collapse: every group is settled and the pass is the identity. */
  lemma CompactIsFixed(t: Table, cutoff: int)
    requires Aligned(cutoff) && Compact(t, cutoff)
    ensures StaleGroups(t, cutoff) == {} && StaleRows(t, cutoff) == {}
    ensures Collapsed(t, cutoff) == t
  {
    hide KindOf, Aggregate, RowsIn;
    forall k: Key | k.ts < cutoff && Aligned(k.ts)
      ensures GroupRows(t, k) == if k in t then [Stamped(k.ts, t[k])] else []
    {
      AlignedBelow(k.ts, cutoff);
      var end := k.ts + BUCKET_MS;
      if k in t {
        RowsNext(t, k.instance, k.series, k.ts, k.ts, end);
        RowsNone(t, k.instance, k.series, k.ts + 1, end);
      } else {
        RowsNone(t, k.instance, k.series, k.ts, end);
      }
    }
    forall g | g in Groups(t, cutoff)
      ensures Settled(t, g)
    {
      GroupsMeaning(t, cutoff, g);
    }
    hide Collapsed, Settled;
    forall k
      ensures k in Collapsed(t, cutoff) <==> k in t
      ensures k in t ==> Collapsed(t, cutoff)[k] == t[k]
    {
      CollapsedMeaning(t, cutoff, k);
      if k.ts < cutoff && k in t {
        SettledAggregate(t, k);
      }
    }
  }

  lemma SettledAggregate(t: Table, k: Key)
    requires Aligned(k.ts) && k in t && GroupRows(t, k) == [Stamped(k.ts, t[k])]
    ensures Aggregate(KindOf(k.series), GroupRows(t, k)) == t[k]
  {
    hide RowsIn, KindOf;
    assert Settled(t, k);
    SettledRow(t, k);
  }

  /**
   A second pass at the same `now` rewrites and collapses nothing. It may only expire, and only rows
   at the bucket start just below the expiry; a third pass is the identity.
   */
  lemma SecondPassOnlyExpires(t: Table, now: Millis, retentionDays: nat)
    ensures var expiry := Expiry(now, retentionDays);
      var once := Maintained(t, now, retentionDays);
      var twice := Maintained(once, now, retentionDays);
      && Report(once, now, retentionDays) == Maintenance(0, 0, |ExpiredKeys(once, expiry)|)
      && twice == Expire(once, expiry)
      && (forall k :: k in ExpiredKeys(once, expiry) ==> Aligned(k.ts) && k.ts < expiry < k.ts + BUCKET_MS)
      && Maintained(twice, now, retentionDays) == twice
      && Report(twice, now, retentionDays) == Maintenance(0, 0, 0)
  {
    hide KindOf, Collapsed, GroupRows, Aggregate, FloorTo, Expiry, StaleGroups, StaleRows;
    CutoffAligned(now);
    var expiry, cutoff := Expiry(now, retentionDays), Cutoff(now);
    var live := Expire(t, expiry);
    var once := Collapsed(live, cutoff);
    CollapsedIsCompact(live, cutoff);
    var twice := Expire(once, expiry);
    assert Compact(twice, cutoff);
    CompactIsFixed(twice, cutoff);
    assert Expire(twice, expiry) == twice;
    assert ExpiredKeys(twice, expiry) == {};
    forall k | k in ExpiredKeys(once, expiry)
      ensures Aligned(k.ts) && k.ts < expiry < k.ts + BUCKET_MS
    {
      CollapsedMeaning(live, cutoff, k);
      if k.ts < cutoff {
        var s := GroupHasRow(live, k);
      }
    }
  }

  /**
   The second pass is already the identity exactly when no bucket collapsed by the first straddles
   the expiry; in particular when the expiry is bucket-aligned or retention is at most one day.
   */
  lemma SecondPassIdentity(t: Table, now: Millis, retentionDays: nat)
    ensures var expiry := Expiry(now, retentionDays);
      var once := Maintained(t, now, retentionDays);
      var straddled := exists k :: k in t && expiry <= k.ts < Cutoff(now) && BucketStart(k.ts) < expiry;
      && (Maintained(once, now, retentionDays) == once <==> !straddled)
      && (Report(once, now, retentionDays) == Maintenance(0, 0, 0) <==> !straddled)
      && (Aligned(expiry) || retentionDays <= 1 ==> !straddled)
  {
    hide KindOf, Collapsed, GroupRows, Aggregate, FloorTo, StaleGroups, StaleRows, Expiry;
    CutoffAligned(now);
    SecondPassOnlyExpires(t, now, retentionDays);
    var expiry, cutoff := Expiry(now, retentionDays), Cutoff(now);
    var live := Expire(t, expiry);
    var once := Maintained(t, now, retentionDays);
    var expired := ExpiredKeys(once, expiry);
    if k :| k in t && expiry <= k.ts < cutoff && BucketStart(k.ts) < expiry {
      var g := GroupOf(k);
      BucketStartBounds(k.ts);
      GroupHolds(live, k);
      CollapsedMeaning(live, cutoff, g);
      assert g in expired;
      assert g !in Expire(once, expiry);
    } else {
      forall k | k in once
        ensures k.ts >= expiry
      {
        CollapsedMeaning(live, cutoff, k);
        if k.ts < cutoff {
          var s := GroupHasRow(live, k);
          AlignedBelow(k.ts, cutoff);
          assert s in t;
        }
      }
      assert expired == {};
    }
    ExpiryStraddles(now, retentionDays);
    if Aligned(expiry) {
      forall k | k in t && expiry <= k.ts
        ensures BucketStart(k.ts) >= expiry
      {
        AlignedStart(expiry, k.ts);
      }
    }
  }

  /**
   Such a bucket exists: one row half a minute into a bucket, and a clock whose expiry is that instant. The
   first pass keeps it, at the bucket start; the second drops it.
   */
  lemma SecondPassMayExpire(instance: string, series: string)
    ensures var t, now := OneRow(instance, series, BUCKET_MS / 2, 1.0), 2 * DAY_MS + BUCKET_MS / 2;
      var once := Maintained(t, now, 2);
      && once.Keys == {Key(instance, series, 0)}
      && Maintained(once, now, 2) == map[]
  {
    hide KindOf, Collapsed, GroupRows, Aggregate, BucketStart;
    var t, now := OneRow(instance, series, BUCKET_MS / 2, 1.0), 2 * DAY_MS + BUCKET_MS / 2;
    var g := Key(instance, series, 0);
    assert Expiry(now, 2) == BUCKET_MS / 2;
    FloorUnique(now - RAW_WINDOW_MS, DAY_MS, BUCKET_MS);
    assert Cutoff(now) == DAY_MS;
    assert Expire(t, Expiry(now, 2)) == t;
    var once := Collapsed(t, DAY_MS);
    BucketOfMember(0, BUCKET_MS / 2);
    forall k
      ensures k in once <==> k == g
    {
      OneRowCollapsed(instance, series, BUCKET_MS / 2, 1.0, DAY_MS, k);
    }
    assert once.Keys == {g};
    SecondPassOnlyExpires(t, now, 2);
    assert Expire(once, BUCKET_MS / 2) == map[];
  }

  lemma AlignedStart(expiry: int, ts: nat)
    requires Aligned(expiry) && expiry <= ts
    ensures BucketStart(ts) >= expiry
  {
  }

  lemma ExpiryStraddles(now: Millis, retentionDays: nat)
    ensures retentionDays <= 1 ==> Expiry(now, retentionDays) >= Cutoff(now)
  {
    CutoffAligned(now);
  }
}
