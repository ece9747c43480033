/**
 Samples written into buckets already collapsed: exactly which of them a pass cannot tell from samples
 written on time, and a run in which one of the others is averaged against an average. The condition is
 worked out for one bucket first, then for a collapse, for a pass that also expires rows, and last for
 any pass after any run that was on time up to the write.
 */
module LateWrites {
  import opened Prelude
  import opened Bucketing
  import opened Catalog
  import opened Store
  import opened Compaction
  import opened StoreRuns

  // ---- exactly which late writes do no harm ----------------------------------------------

  /** The rows of a key's bucket before it. */
  function EarlierRows(t: Table, k: Key): seq<Stamped> {
    RowsIn(t, k.instance, k.series, BucketStart(k.ts), k.ts)
  }

  /** The rows of a key's bucket after it. */
  function LaterRows(t: Table, k: Key): seq<Stamped> {
    RowsIn(t, k.instance, k.series, k.ts + 1, BucketStart(k.ts) + BUCKET_MS)
  }

  function RowAt(t: Table, k: Key): seq<Stamped> {
    if k in t then [Stamped(k.ts, t[k])] else []
  }

  lemma BucketAround(t: Table, k: Key)
    ensures GroupRows(t, GroupOf(k)) == EarlierRows(t, k) + (RowAt(t, k) + LaterRows(t, k))
  {
    hide RowsIn;
    BucketStartBounds(k.ts);
    var start := BucketStart(k.ts);
    var end := start + BUCKET_MS;
    RowsSplit(t, k.instance, k.series, start, k.ts, end);
    RowsSplit(t, k.instance, k.series, k.ts, k.ts + 1, end);
    if k in t {
      RowsNext(t, k.instance, k.series, k.ts, k.ts, k.ts + 1);
      RowsNone(t, k.instance, k.series, k.ts + 1, k.ts + 1);
    } else {
      RowsNone(t, k.instance, k.series, k.ts, k.ts + 1);
    }
  }

  /** Writing a key puts its row between the bucket's earlier and later rows. */
  lemma BucketWritten(t: Table, sample: Sample)
    ensures var k := sample.KeyOf();
      GroupRows(Insert(t, sample), GroupOf(k)) == EarlierRows(t, k) + ([Stamped(k.ts, sample.RowOf())] + LaterRows(t, k))
  {
    hide RowsIn, GroupRows, GroupOf, BucketStart;
    var k := sample.KeyOf();
    var more := Insert(t, sample);
    BucketAround(more, k);
    RowsSame(t, more, k.instance, k.series, BucketStart(k.ts), k.ts);
    RowsSame(t, more, k.instance, k.series, k.ts + 1, BucketStart(k.ts) + BUCKET_MS);
  }

  /** Around a key below the cutoff, a compacted table holds at most the bucket's one row, at its start. */
  lemma CompactedAround(log: Table, high: int, k: Key)
    requires Aligned(high) && k.ts < high
    ensures LaterRows(Collapsed(log, high), k) == []
    ensures var cell := GroupRows(log, GroupOf(k));
      EarlierRows(Collapsed(log, high), k) ==
      if Aligned(k.ts) || cell == [] then [] else [Stamped(BucketStart(k.ts), Aggregate(KindOf(k.series), cell))]
  {
    hide KindOf, Collapsed, RowsIn, Aggregate;
    BucketStartBounds(k.ts);
    var t, start := Collapsed(log, high), BucketStart(k.ts);
    var end := start + BUCKET_MS;
    AlignedBelow(start, high) by {
      assert start < high;
    }
    forall ts: nat | start < ts < end
      ensures Key(k.instance, k.series, ts) !in t
    {
      NotAligned(start, ts);
      CollapsedMeaning(log, high, Key(k.instance, k.series, ts));
    }
    RowsNone(t, k.instance, k.series, k.ts + 1, end);
    if k.ts == start {
      RowsNone(t, k.instance, k.series, start, k.ts);
    } else {
      NotAligned(start, k.ts);
      CollapsedCell(log, high, k.instance, k.series, start);
      RowsSplit(t, k.instance, k.series, start, k.ts, end);
      RowsNone(t, k.instance, k.series, k.ts, end);
    }
  }

  /** Collapsing after the write gives the table it would give had its bucket never been collapsed. */
  ghost predicate CollapseAgrees(log: Table, high: int, cutoff: int, sample: Sample) {
    Collapsed(Insert(Collapsed(log, high), sample), cutoff) == Collapsed(Insert(log, sample), Max(high, cutoff))
  }

  lemma OtherBucketsAgree(log: Table, high: int, cutoff: int, sample: Sample, k: Key)
    requires Aligned(high) && Aligned(cutoff) && sample.ts < high && sample.ts < cutoff && k != GroupOf(sample.KeyOf())
    ensures var x := Collapsed(Insert(Collapsed(log, high), sample), cutoff);
      var y := Collapsed(Insert(log, sample), Max(high, cutoff));
      (k in x <==> k in y) && (k in x ==> x[k] == y[k])
  {
    hide KindOf, Collapsed, RowsIn, Aggregate;
    var t := Collapsed(log, high);
    CollapsedMeaning(Insert(t, sample), cutoff, k);
    CollapsedMeaning(Insert(log, sample), Max(high, cutoff), k);
    CollapsedMeaning(log, high, k);
    if k.ts < Max(high, cutoff) && Aligned(k.ts) {
      var end := k.ts + BUCKET_MS;
      forall ts: nat | k.ts <= ts < end
        ensures Key(k.instance, k.series, ts) != sample.KeyOf()
      {
        BucketOfMember(k.ts, ts);
      }
      RowsSame(Insert(t, sample), t, k.instance, k.series, k.ts, end);
      RowsSame(Insert(log, sample), log, k.instance, k.series, k.ts, end);
      if k.ts < high {
        AggregateOnce(log, high, k);
      } else {
        CollapsedScanAbove(log, high, k.instance, k.series, k.ts, end);
      }
    }
  }

  /** A late write is harmless when its own bucket collapses to the same row either way. */
  lemma AgreesInBucket(log: Table, high: int, cutoff: int, sample: Sample)
    requires Aligned(high) && Aligned(cutoff) && sample.ts < high && sample.ts < cutoff
    ensures var g := GroupOf(sample.KeyOf());
      var x, y := GroupRows(Insert(Collapsed(log, high), sample), g), GroupRows(Insert(log, sample), g);
      && x != [] && y != []
      && (CollapseAgrees(log, high, cutoff, sample) <==> Aggregate(KindOf(sample.series), x) == Aggregate(KindOf(sample.series), y))
  {
    hide KindOf, Collapsed, GroupRows, Aggregate, BucketStart;
    var g := GroupOf(sample.KeyOf());
    BucketStartBounds(sample.ts);
    var t, u := Insert(Collapsed(log, high), sample), Insert(log, sample);
    GroupHolds(t, sample.KeyOf());
    GroupHolds(u, sample.KeyOf());
    CollapsedMeaning(t, cutoff, g);
    CollapsedMeaning(u, Max(high, cutoff), g);
    var x, y := Collapsed(t, cutoff), Collapsed(u, Max(high, cutoff));
    forall k | k != g
      ensures k in x <==> k in y
      ensures k in x ==> x[k] == y[k]
    {
      OtherBucketsAgree(log, high, cutoff, sample, k);
    }
    assert x[g] == y[g] ==> x == y;
  }

  lemma AggregateSnoc(kind: Kind, rows: seq<Stamped>, r: Stamped)
    ensures var row := Aggregate(kind, rows + [r]);
      && row.source == r.row.source && row.honesty == r.row.honesty
      && (kind.Counter? ==> row.value == r.row.value)
      && (kind.Gauge? ==> row.value == (Sum(Points(rows)) + r.row.value) / (|rows| + 1) as real)
  {
    PointsAppend(rows, [r]);
    assert Points([r]) == [Point(r.ts, r.row.value)];
    SumAppend(Points(rows), Points([r]));
    SumOfOne(Point(r.ts, r.row.value));
  }

  lemma SumOfRow(r: Stamped)
    ensures Sum(Points([r])) == r.row.value
  {
    SumOfOne(Point(r.ts, r.row.value));
    assert Points([r]) == [Point(r.ts, r.row.value)];
  }

  /**
   Nothing of the bucket is newer than the write, and then one of: it falls on the bucket start; its
   series is a counter; it is the bucket's first row; or exactly one row is older, and a row the write
   replaces had that row's value.
   */
  ghost predicate HarmlessLate(log: Table, k: Key) {
    && LaterRows(log, k) == []
    && (|| Aligned(k.ts)
        || KindOf(k.series).Counter?
        || (EarlierRows(log, k) == [] && k !in log)
        || (|EarlierRows(log, k)| == 1 && (k in log ==> log[k].value == EarlierRows(log, k)[0].row.value)))
  }

  /** The bucket of a late write, compacted first or raw, in terms of the raw rows around it. */
  lemma LateBuckets(log: Table, high: int, sample: Sample)
    requires Aligned(high) && sample.ts < high
    ensures var k := sample.KeyOf();
      var g, cell, row := GroupOf(k), GroupRows(log, GroupOf(k)), Stamped(k.ts, sample.RowOf());
      && cell == EarlierRows(log, k) + (RowAt(log, k) + LaterRows(log, k))
      && GroupRows(Insert(log, sample), g) == EarlierRows(log, k) + ([row] + LaterRows(log, k))
      && GroupRows(Insert(Collapsed(log, high), sample), g) ==
           if Aligned(k.ts) || cell == [] then [row] else [Stamped(g.ts, Aggregate(KindOf(k.series), cell)), row]
  {
    hide KindOf, Collapsed, GroupRows, Aggregate, BucketStart, EarlierRows, LaterRows;
    var k := sample.KeyOf();
    BucketAround(log, k);
    BucketWritten(log, sample);
    BucketWritten(Collapsed(log, high), sample);
    CompactedAround(log, high, k);
  }

  lemma AlignedIsFirst(log: Table, k: Key)
    requires Aligned(k.ts)
    ensures EarlierRows(log, k) == []
  {
    hide RowsIn;
    BucketOfMember(k.ts, k.ts);
    RowsNone(log, k.instance, k.series, k.ts, k.ts);
  }

  lemma HarmlessAgrees(log: Table, high: int, cutoff: int, sample: Sample)
    requires Aligned(high) && Aligned(cutoff) && sample.ts < high && sample.ts < cutoff && HarmlessLate(log, sample.KeyOf())
    ensures CollapseAgrees(log, high, cutoff, sample)
  {
    hide KindOf, Collapsed, GroupRows, Aggregate, EarlierRows, LaterRows, BucketStart, CollapseAgrees;
    var k := sample.KeyOf();
    var row, earlier := Stamped(k.ts, sample.RowOf()), EarlierRows(log, k);
    AgreesInBucket(log, high, cutoff, sample);
    LateBuckets(log, high, sample);
    assert earlier + ([row] + []) == earlier + [row];
    if Aligned(k.ts) {
      AlignedIsFirst(log, k);
      assert [] + [row] == [row];
    } else if GroupRows(log, GroupOf(k)) != [] {
      var collapsed := Stamped(GroupOf(k).ts, Aggregate(KindOf(k.series), GroupRows(log, GroupOf(k))));
      assert [collapsed, row] == [collapsed] + [row];
      AggregateSnoc(KindOf(k.series), earlier, row);
      AggregateSnoc(KindOf(k.series), [collapsed], row);
      SumOfRow(collapsed);
      if KindOf(k.series).Gauge? {
        OneOlderCollapses(log, k);
      }
    } else {
      assert earlier == [];
      assert [] + [row] == [row];
    }
  }

  /** A bucket of one row, and perhaps another of the same value, collapses to that value. */
  lemma OneOlderCollapses(log: Table, k: Key)
    requires HarmlessLate(log, k) && KindOf(k.series).Gauge? && !Aligned(k.ts) && GroupRows(log, GroupOf(k)) != []
    ensures |EarlierRows(log, k)| == 1
    ensures Aggregate(Gauge, GroupRows(log, GroupOf(k))).value == Sum(Points(EarlierRows(log, k)))
  {
    hide KindOf, EarlierRows, LaterRows, GroupRows, Aggregate;
    BucketAround(log, k);
    var earlier, cell := EarlierRows(log, k), GroupRows(log, GroupOf(k));
    assert earlier != [];
    assert earlier == [earlier[0]];
    SumOfRow(earlier[0]);
    if k in log {
      assert cell == earlier + [Stamped(k.ts, log[k])];
      AggregateSnoc(Gauge, earlier, Stamped(k.ts, log[k]));
    } else {
      assert cell == [] + [earlier[0]];
      AggregateSnoc(Gauge, [], earlier[0]);
      assert Sum(Points([])) == 0.0;
    }
  }

  /** Two means that agree for the values zero and one are over equally many rows and equal sums. */
  lemma MeansAgree(a: real, total: real, n: real)
    requires n > 0.0 && (a + 0.0) / 2.0 == (total + 0.0) / n && (a + 1.0) / 2.0 == (total + 1.0) / n
    ensures n == 2.0 && a == total
  {
    assert total == (a / 2.0) * n;
    assert total + 1.0 == (a / 2.0 + 0.5) * n == (a / 2.0) * n + 0.5 * n;
  }

  function LateSample(k: Key, value: real, honesty: Honesty): Sample {
    Sample(k.instance, k.series, k.ts, value, Metrics, honesty)
  }

  lemma NewerRowShows(log: Table, high: int, cutoff: int, k: Key)
    requires Aligned(high) && Aligned(cutoff) && k.ts < high && k.ts < cutoff && LaterRows(log, k) != []
    ensures exists sample: Sample :: sample.KeyOf() == k && !CollapseAgrees(log, high, cutoff, sample)
  {
    hide KindOf, Collapsed, GroupRows, Aggregate, EarlierRows, LaterRows, BucketStart, CollapseAgrees;
    var later, earlier, kind := LaterRows(log, k), EarlierRows(log, k), KindOf(k.series);
    var last := later[|later| - 1];
    var sample := LateSample(k, 0.0, if last.row.honesty == HonestyText(Measured) then Target else Measured);
    var row := Stamped(k.ts, sample.RowOf());
    assert sample.KeyOf() == k;
    AgreesInBucket(log, high, cutoff, sample);
    LateBuckets(log, high, sample);
    var front := earlier + ([row] + later[..|later| - 1]);
    assert earlier + ([row] + later) == front + [last];
    AggregateSnoc(kind, front, last);
    var cell := GroupRows(log, GroupOf(k));
    if Aligned(k.ts) || cell == [] {
      assert [row] == [] + [row];
      AggregateSnoc(kind, [], row);
    } else {
      var collapsed := Stamped(GroupOf(k).ts, Aggregate(kind, cell));
      assert [collapsed, row] == [collapsed] + [row];
      AggregateSnoc(kind, [collapsed], row);
    }
  }

  /** What agreement at one value says about the means. */
  lemma GaugeAgreement(log: Table, high: int, cutoff: int, k: Key, value: real)
    requires Aligned(high) && Aligned(cutoff) && k.ts < high && k.ts < cutoff
    requires KindOf(k.series).Gauge? && LaterRows(log, k) == [] && !Aligned(k.ts) && GroupRows(log, GroupOf(k)) != []
    ensures CollapseAgrees(log, high, cutoff, LateSample(k, value, Measured)) ==>
      (Aggregate(Gauge, GroupRows(log, GroupOf(k))).value + value) / 2.0 ==
      (Sum(Points(EarlierRows(log, k))) + value) / (|EarlierRows(log, k)| + 1) as real
  {
    hide KindOf, Collapsed, GroupRows, Aggregate, EarlierRows, LaterRows, BucketStart, CollapseAgrees, Sum, Points, Insert;
    var sample, earlier := LateSample(k, value, Measured), EarlierRows(log, k);
    assert sample.KeyOf() == k;
    var row := Stamped(k.ts, sample.RowOf());
    AgreesInBucket(log, high, cutoff, sample);
    LateBuckets(log, high, sample);
    assert earlier + ([row] + []) == earlier + [row];
    var collapsed := Stamped(GroupOf(k).ts, Aggregate(Gauge, GroupRows(log, GroupOf(k))));
    assert [collapsed, row] == [collapsed] + [row];
    AggregateSnoc(Gauge, earlier, row);
    AggregateSnoc(Gauge, [collapsed], row);
    SumOfRow(collapsed);
  }

  /** A gauge whose means agree at two values has one older row, which its bucket collapsed to. */
  lemma GaugeMustHaveOneOlder(log: Table, high: int, cutoff: int, k: Key)
    requires Aligned(high) && Aligned(cutoff) && k.ts < high && k.ts < cutoff
    requires KindOf(k.series).Gauge? && LaterRows(log, k) == [] && !Aligned(k.ts) && GroupRows(log, GroupOf(k)) != []
    ensures CollapseAgrees(log, high, cutoff, LateSample(k, 0.0, Measured)) && CollapseAgrees(log, high, cutoff, LateSample(k, 1.0, Measured)) ==>
      HarmlessLate(log, k)
  {
    hide KindOf, GroupRows, Aggregate, EarlierRows, LaterRows, CollapseAgrees, Sum, Points;
    GaugeAgreement(log, high, cutoff, k, 0.0);
    GaugeAgreement(log, high, cutoff, k, 1.0);
    if CollapseAgrees(log, high, cutoff, LateSample(k, 0.0, Measured)) && CollapseAgrees(log, high, cutoff, LateSample(k, 1.0, Measured)) {
      var earlier, cell := EarlierRows(log, k), GroupRows(log, GroupOf(k));
      MeansAgree(Aggregate(Gauge, cell).value, Sum(Points(earlier)), (|earlier| + 1) as real);
      assert |earlier| + 1 == 2;
      if k in log {
        ReplacedRowAgrees(log, k);
      }
    }
  }

  lemma ReplacedRowAgrees(log: Table, k: Key)
    requires k in log && |EarlierRows(log, k)| == 1 && LaterRows(log, k) == []
    requires GroupRows(log, GroupOf(k)) != []
    requires Aggregate(Gauge, GroupRows(log, GroupOf(k))).value == Sum(Points(EarlierRows(log, k)))
    ensures log[k].value == EarlierRows(log, k)[0].row.value
  {
    hide GroupRows, Aggregate, EarlierRows, LaterRows;
    var earlier, cell := EarlierRows(log, k), GroupRows(log, GroupOf(k));
    assert earlier == [earlier[0]];
    SumOfRow(earlier[0]);
    BucketAround(log, k);
    assert cell == earlier + [Stamped(k.ts, log[k])];
    AggregateSnoc(Gauge, earlier, Stamped(k.ts, log[k]));
  }

  lemma HarmfulShows(log: Table, high: int, cutoff: int, k: Key)
    requires Aligned(high) && Aligned(cutoff) && k.ts < high && k.ts < cutoff
    requires forall sample: Sample :: sample.KeyOf() == k ==> CollapseAgrees(log, high, cutoff, sample)
    ensures HarmlessLate(log, k)
  {
    hide KindOf, CollapseAgrees, GroupRows, EarlierRows, LaterRows;
    if LaterRows(log, k) != [] {
      NewerRowShows(log, high, cutoff, k);
    }
    BucketAround(log, k);
    if KindOf(k.series).Gauge? && !Aligned(k.ts) && GroupRows(log, GroupOf(k)) != [] {
      assert LateSample(k, 0.0, Measured).KeyOf() == k && LateSample(k, 1.0, Measured).KeyOf() == k;
      GaugeMustHaveOneOlder(log, high, cutoff, k);
    }
  }

  lemma OnTimeAgrees(log: Table, high: int, cutoff: int, sample: Sample)
    requires Aligned(high) && Aligned(cutoff) && sample.ts >= high
    ensures CollapseAgrees(log, high, cutoff, sample)
  {
    hide Collapsed;
    var more := Insert(log, sample);
    PutCommutes(log, high, sample);
    PassCommutes(more, high, 0, cutoff);
    assert Expire(Collapsed(more, high), 0) == Collapsed(more, high);
    assert KeepLog(more, high, 0) == more;
  }

  /**
   The invariant itself survives a write, before any pass, whatever the write carries, exactly when it is
   at or above the cutoff or falls on the start of a bucket with nothing newer in it.
   */
  lemma PutCommutesExactly(log: Table, high: int, k: Key)
    requires Aligned(high)
    ensures (forall sample: Sample :: sample.KeyOf() == k ==>
        Insert(Collapsed(log, high), sample) == Collapsed(Insert(log, sample), high)) <==>
      k.ts >= high || (Aligned(k.ts) && LaterRows(log, k) == [])
  {
    hide KindOf, Collapsed, LaterRows;
    if k.ts >= high {
      forall sample: Sample | sample.KeyOf() == k
        ensures Insert(Collapsed(log, high), sample) == Collapsed(Insert(log, sample), high)
      {
        PutCommutes(log, high, sample);
      }
    } else if Aligned(k.ts) && LaterRows(log, k) == [] {
      forall sample: Sample | sample.KeyOf() == k
        ensures Insert(Collapsed(log, high), sample) == Collapsed(Insert(log, sample), high)
      {
        StartCommutes(log, high, sample);
      }
    } else {
      var sample := UncommutingSample(log, high, k);
    }
  }

  lemma StartCommutes(log: Table, high: int, sample: Sample)
    requires Aligned(high) && sample.ts < high && Aligned(sample.ts) && LaterRows(log, sample.KeyOf()) == []
    ensures Insert(Collapsed(log, high), sample) == Collapsed(Insert(log, sample), high)
  {
    hide KindOf, Collapsed, RowsIn, Aggregate, BucketStart, LaterRows;
    var more, s := Insert(log, sample), sample.KeyOf();
    var x, y := Insert(Collapsed(log, high), sample), Collapsed(more, high);
    BucketOfMember(s.ts, s.ts);
    LateBuckets(log, high, sample);
    AlignedIsFirst(log, s);
    var row := Stamped(s.ts, sample.RowOf());
    assert GroupRows(more, s) == [row] by {
      assert [] + ([row] + []) == [row];
    }
    AggregateSingle(KindOf(s.series), row);
    CollapsedMeaning(more, high, s);
    forall k | k != s
      ensures k in x <==> k in y
      ensures k in x ==> x[k] == y[k]
    {
      CollapsedMeaning(log, high, k);
      CollapsedMeaning(more, high, k);
      if k.ts < high && Aligned(k.ts) {
        OtherStart(k.ts, sample.ts);
        RowsSame(log, more, k.instance, k.series, k.ts, k.ts + BUCKET_MS);
      }
    }
  }

  lemma AggregateSingle(kind: Kind, r: Stamped)
    ensures Aggregate(kind, [r]) == r.row
  {
    assert Points([r]) == [Point(r.ts, r.row.value)];
    SingleSummary(kind, Point(r.ts, r.row.value));
  }

  lemma UncommutingSample(log: Table, high: int, k: Key) returns (sample: Sample)
    requires Aligned(high) && k.ts < high && (!Aligned(k.ts) || LaterRows(log, k) != [])
    ensures sample.KeyOf() == k && Insert(Collapsed(log, high), sample) != Collapsed(Insert(log, sample), high)
  {
    hide KindOf, Collapsed, GroupRows, Aggregate, BucketStart, EarlierRows, LaterRows;
    sample := LateSample(k, 0.0, Measured);
    if Aligned(k.ts) {
      var later := LaterRows(log, k);
      var last := later[|later| - 1];
      sample := LateSample(k, 0.0, if last.row.honesty == HonestyText(Measured) then Target else Measured);
      LateBuckets(log, high, sample);
      BucketOfMember(k.ts, k.ts);
      AlignedIsFirst(log, k);
      var front := [] + ([Stamped(k.ts, sample.RowOf())] + later[..|later| - 1]);
      assert [] + ([Stamped(k.ts, sample.RowOf())] + later) == front + [last];
      AggregateSnoc(KindOf(k.series), front, last);
    }
    CollapsedMeaning(Insert(log, sample), high, k);
    assert k in Insert(Collapsed(log, high), sample);
  }

  /**
   A late write a collapse at `cutoff` cannot tell from one on time: harmless in a bucket it collapses;
   beyond that, on the start of a bucket with nothing newer in it.
   */
  ghost predicate Unnoticed(log: Table, cutoff: int, k: Key) {
    if k.ts < cutoff then HarmlessLate(log, k) else Aligned(k.ts) && LaterRows(log, k) == []
  }

  /** Above the cutoff of an earlier clock a late write stays as it was written. */
  lemma BeyondCutoff(log: Table, high: int, cutoff: int, sample: Sample)
    requires Aligned(high) && Aligned(cutoff) && cutoff <= sample.ts < high
    ensures CollapseAgrees(log, high, cutoff, sample) <==>
      Insert(Collapsed(log, high), sample) == Collapsed(Insert(log, sample), high)
  {
    hide Collapsed;
    CollapsedIsCompact(log, high);
    CompactIsFixed(Insert(Collapsed(log, high), sample), cutoff);
  }

  lemma CollapseAgreesExactly(log: Table, high: int, cutoff: int, k: Key)
    requires Aligned(high) && Aligned(cutoff)
    ensures (forall sample: Sample :: sample.KeyOf() == k ==> CollapseAgrees(log, high, cutoff, sample)) <==>
      k.ts >= high || Unnoticed(log, cutoff, k)
  {
    hide KindOf, HarmlessLate, CollapseAgrees, GroupRows, EarlierRows, LaterRows, Collapsed;
    if k.ts >= high {
      forall sample: Sample | sample.KeyOf() == k
        ensures CollapseAgrees(log, high, cutoff, sample)
      {
        OnTimeAgrees(log, high, cutoff, sample);
      }
    } else if k.ts >= cutoff {
      PutCommutesExactly(log, high, k);
      forall sample: Sample | sample.KeyOf() == k
        ensures CollapseAgrees(log, high, cutoff, sample) <==>
          Insert(Collapsed(log, high), sample) == Collapsed(Insert(log, sample), high)
      {
        BeyondCutoff(log, high, cutoff, sample);
      }
    } else if HarmlessLate(log, k) {
      forall sample: Sample | sample.KeyOf() == k
        ensures CollapseAgrees(log, high, cutoff, sample)
      {
        HarmlessAgrees(log, high, cutoff, sample);
      }
    } else if forall sample: Sample :: sample.KeyOf() == k ==> CollapseAgrees(log, high, cutoff, sample) {
      HarmfulShows(log, high, cutoff, k);
    }
  }

  // ---- a whole pass: expiry, then collapse ----------------------------------------------------

  /** After the write and a pass, the table is the compaction of the log with the write, as after writes on time. */
  ghost predicate PassAgrees(log: Table, high: int, expiry: int, cutoff: int, sample: Sample) {
    Collapsed(Expire(Insert(Collapsed(log, high), sample), expiry), cutoff) ==
    Collapsed(KeepLog(Insert(log, sample), high, expiry), Max(high, cutoff))
  }

  /** Expiring a compacted table is compacting what the log keeps. */
  lemma ExpireCommutes(log: Table, high: int, expiry: int)
    requires Aligned(high)
    ensures Expire(Collapsed(log, high), expiry) == Collapsed(KeepLog(log, high, expiry), high)
  {
    hide Collapsed;
    CollapsedIsCompact(log, high);
    CompactIsFixed(Expire(Collapsed(log, high), expiry), high);
    PassCommutes(log, high, expiry, high);
  }

  /** A late write already past its expiry is gone before the pass collapses anything. */
  lemma ExpiredAgrees(log: Table, high: int, expiry: int, cutoff: int, sample: Sample)
    requires Aligned(high) && Aligned(cutoff) && sample.ts < high && sample.ts < expiry
    ensures PassAgrees(log, high, expiry, cutoff, sample)
  {
    hide Collapsed, BucketStart;
    BucketStartBounds(sample.ts);
    PassCommutes(log, high, expiry, cutoff);
    assert Expire(Insert(Collapsed(log, high), sample), expiry) == Expire(Collapsed(log, high), expiry);
    assert KeepLog(Insert(log, sample), high, expiry) == KeepLog(log, high, expiry);
  }

  /** A late write that outlives its expired bucket leaves a row where there should be none. */
  lemma StraddlingShows(log: Table, high: int, expiry: int, cutoff: int, sample: Sample)
    requires Aligned(high) && Aligned(cutoff) && sample.ts < high && BucketStart(sample.ts) < expiry <= sample.ts
    ensures !PassAgrees(log, high, expiry, cutoff, sample)
  {
    hide Collapsed, BucketStart, KindOf, Aggregate, GroupRows;
    var k := sample.KeyOf();
    var g := GroupOf(k);
    var t, u := Expire(Insert(Collapsed(log, high), sample), expiry), KeepLog(Insert(log, sample), high, expiry);
    BucketStartBounds(sample.ts);
    assert k in t;
    GroupHolds(t, k);
    var seen := if k.ts < cutoff then g else k;
    if k.ts < cutoff {
      assert g.ts < cutoff;
    }
    CollapsedMeaning(t, cutoff, seen);
    assert seen in Collapsed(t, cutoff);
    forall s | s in u && GroupOf(s) == g
      ensures false
    {
      BucketStartBounds(s.ts);
      BelowTogether(k.ts, s.ts, high);
    }
    CollapsedMeaning(u, Max(high, cutoff), seen);
    if seen in Collapsed(u, Max(high, cutoff)) {
      var s := GroupHasRow(u, seen);
      BucketOfMember(seen.ts, seen.ts);
      GroupOfStart(seen, k, g);
      assert false;
    }
  }

  /** Two instants of one bucket lie on the same side of a bucket boundary. */
  lemma BelowTogether(a: nat, b: nat, high: int)
    requires Aligned(high) && BucketStart(a) == BucketStart(b) && a < high
    ensures b < high
  {
    BucketStartBounds(a);
    BucketStartBounds(b);
    AlignedBelow(BucketStart(a), high);
  }

  lemma GroupOfStart(seen: Key, k: Key, g: Key)
    requires g == GroupOf(k) && (seen == g || seen == k) && seen.ts % BUCKET_MS == 0
    ensures seen == g
  {
    BucketOfMember(seen.ts, seen.ts);
  }

  /** A bucket the expiry leaves whole reads the same from the log and from what the log keeps of it. */
  lemma KeptAround(log: Table, high: int, expiry: int, k: Key)
    requires Aligned(high) && k.ts < high && BucketStart(k.ts) >= expiry
    ensures var kept := KeepLog(log, high, expiry);
      && EarlierRows(kept, k) == EarlierRows(log, k) && LaterRows(kept, k) == LaterRows(log, k)
      && (k in kept <==> k in log) && (k in log ==> kept[k] == log[k])
  {
    hide RowsIn, BucketStart;
    BucketStartBounds(k.ts);
    var kept, start := KeepLog(log, high, expiry), BucketStart(k.ts);
    forall ts: nat | start <= ts < start + BUCKET_MS
      ensures Kept(ts, high, expiry)
    {
      BucketOfMember(start, ts);
      BelowTogether(k.ts, ts, high);
    }
    RowsSame(kept, log, k.instance, k.series, start, k.ts);
    RowsSame(kept, log, k.instance, k.series, k.ts + 1, start + BUCKET_MS);
  }

  lemma UnexpiredAgrees(log: Table, high: int, expiry: int, cutoff: int, sample: Sample)
    requires Aligned(high) && sample.ts < high && BucketStart(sample.ts) >= expiry
    ensures PassAgrees(log, high, expiry, cutoff, sample) <==> CollapseAgrees(KeepLog(log, high, expiry), high, cutoff, sample)
  {
    hide Collapsed, BucketStart;
    BucketStartBounds(sample.ts);
    ExpireCommutes(log, high, expiry);
    assert Expire(Insert(Collapsed(log, high), sample), expiry) == Insert(Expire(Collapsed(log, high), expiry), sample);
    assert KeepLog(Insert(log, sample), high, expiry) == Insert(KeepLog(log, high, expiry), sample);
  }

  lemma OnTimePassAgrees(log: Table, high: int, expiry: int, cutoff: int, sample: Sample)
    requires Aligned(high) && Aligned(cutoff) && sample.ts >= high
    ensures PassAgrees(log, high, expiry, cutoff, sample)
  {
    hide Collapsed;
    PutCommutes(log, high, sample);
    PassCommutes(Insert(log, sample), high, expiry, cutoff);
  }

  /**
   Exactly which writes a pass cannot tell from writes on time, whatever they carry and whatever the clock
   and the retention: those at or above the cutoff already used; those the pass expires; and those whose
   whole bucket outlives the expiry and which the collapse does not notice.
   */
  lemma LateWriteHarmlessExactly(log: Table, high: int, expiry: int, cutoff: int, k: Key)
    requires Aligned(high) && Aligned(cutoff)
    ensures (forall sample: Sample :: sample.KeyOf() == k ==> PassAgrees(log, high, expiry, cutoff, sample)) <==>
      k.ts >= high || k.ts < expiry || (BucketStart(k.ts) >= expiry && Unnoticed(log, cutoff, k))
  {
    hide KindOf, PassAgrees, CollapseAgrees, EarlierRows, LaterRows, Collapsed, BucketStart;
    BucketStartBounds(k.ts);
    if k.ts >= high {
      forall sample: Sample | sample.KeyOf() == k
        ensures PassAgrees(log, high, expiry, cutoff, sample)
      {
        OnTimePassAgrees(log, high, expiry, cutoff, sample);
      }
    } else if k.ts < expiry {
      forall sample: Sample | sample.KeyOf() == k
        ensures PassAgrees(log, high, expiry, cutoff, sample)
      {
        ExpiredAgrees(log, high, expiry, cutoff, sample);
      }
    } else if BucketStart(k.ts) < expiry {
      var sample := LateSample(k, 0.0, Measured);
      assert sample.KeyOf() == k;
      StraddlingShows(log, high, expiry, cutoff, sample);
    } else {
      var kept := KeepLog(log, high, expiry);
      forall sample: Sample | sample.KeyOf() == k
        ensures PassAgrees(log, high, expiry, cutoff, sample) <==> CollapseAgrees(kept, high, cutoff, sample)
      {
        UnexpiredAgrees(log, high, expiry, cutoff, sample);
      }
      CollapseAgreesExactly(kept, high, cutoff, k);
      KeptAround(log, high, expiry, k);
    }
  }

  /** The same, for a run: after any on-time run, one write and then any pass. */
  lemma LateWriteInRun(ops: seq<Op>, now: Millis, retentionDays: nat, k: Key)
    requires OnTime(ops)
    ensures var h, expiry := HistoryOf(ops), Expiry(now, retentionDays);
      (forall sample: Sample :: sample.KeyOf() == k ==>
        var longer := ops + [Put(sample), Pass(now, retentionDays)];
        Replay(longer) == Collapsed(HistoryOf(longer).log, HistoryOf(longer).high)) <==>
      k.ts >= h.high || k.ts < expiry || (BucketStart(k.ts) >= expiry && Unnoticed(h.log, Cutoff(now), k))
  {
    hide Collapsed, HistoryOf, Replay, Unnoticed, Cutoff, Expiry, BucketStart, Insert, Expire, KeepLog;
    var h := HistoryOf(ops);
    CutoffAligned(now);
    RunIsCompactedLog(ops);
    LateWriteHarmlessExactly(h.log, h.high, Expiry(now, retentionDays), Cutoff(now), k);
    forall sample: Sample
      ensures var longer := ops + [Put(sample), Pass(now, retentionDays)];
        Replay(longer) == Collapsed(HistoryOf(longer).log, HistoryOf(longer).high) <==>
        PassAgrees(h.log, h.high, Expiry(now, retentionDays), Cutoff(now), sample)
    {
      WriteThenPass(ops, sample, now, retentionDays);
    }
  }

  lemma WriteThenPass(ops: seq<Op>, sample: Sample, now: Millis, retentionDays: nat)
    requires OnTime(ops)
    ensures var longer := ops + [Put(sample), Pass(now, retentionDays)];
      var h, expiry := HistoryOf(ops), Expiry(now, retentionDays);
      && Replay(longer) == Collapsed(Expire(Insert(Collapsed(h.log, h.high), sample), expiry), Cutoff(now))
      && HistoryOf(longer) == History(KeepLog(Insert(h.log, sample), h.high, expiry), Max(h.high, Cutoff(now)))
  {
    hide Collapsed, Cutoff, Expiry, Kept;
    RunIsCompactedLog(ops);
    var written := ops + [Put(sample)];
    assert written[..|ops|] == ops;
    assert (ops + [Put(sample), Pass(now, retentionDays)])[..|ops| + 1] == written;
  }

  // ---- why writes must be on time -----------------------------------------------------

  function Reading(instance: string, series: string, ts: nat, value: real): Sample {
    Sample(instance, series, ts, value, Metrics, Measured)
  }

  /** Two readings, a pass, a third reading in the same collapsed minute, and another pass. */
  function LateRun(instance: string, series: string): seq<Op> {
    [Put(Reading(instance, series, 0, 0.0)),
     Put(Reading(instance, series, 1, 0.0)),
     Pass(2 * DAY_MS, 7),
     Put(Reading(instance, series, 2, 3.0)),
     Pass(2 * DAY_MS, 7)]
  }

  lemma LateRunSteps(instance: string, series: string)
    ensures var early := EarlyRows(instance, series);
      && HistoryOf(LateRun(instance, series)).log == early[Key(instance, series, 2) := Plain(3.0)]
      && Replay(LateRun(instance, series)) ==
           Collapsed(Insert(Collapsed(early, DAY_MS), Reading(instance, series, 2, 3.0)), DAY_MS)
  {
    hide KindOf, Collapsed;
    var ops := LateRun(instance, series);
    var early := EarlyRows(instance, series);
    assert Cutoff(2 * DAY_MS) == DAY_MS && Expiry(2 * DAY_MS, 7) < 0;
    assert forall t: Table :: Expire(t, Expiry(2 * DAY_MS, 7)) == t;
    assert forall t: Table, high :: KeepLog(t, high, Expiry(2 * DAY_MS, 7)) == t;
    var p1, p2, p3, p4 := ops[..1], ops[..2], ops[..3], ops[..4];
    assert p1[..0] == [] && p2[..1] == p1 && p3[..2] == p2 && p4[..3] == p3 && ops[..4] == p4;
    assert Replay(p1) == map[Key(instance, series, 0) := Plain(0.0)] && HistoryOf(p1).log == Replay(p1);
    assert Replay(p2) == early && HistoryOf(p2).log == early;
    assert Replay(p3) == Collapsed(early, DAY_MS) && HistoryOf(p3).log == early;
    assert Replay(p4) == Insert(Collapsed(early, DAY_MS), Reading(instance, series, 2, 3.0));
    assert HistoryOf(p4).log == Insert(early, Reading(instance, series, 2, 3.0));
  }

  function EarlyRows(instance: string, series: string): Table {
    map[Key(instance, series, 0) := Plain(0.0), Key(instance, series, 1) := Plain(0.0)]
  }

  /** The raw minute: two readings, then three. */
  lemma LateRunRaw(instance: string, series: string)
    ensures var k, p, q, r := Key(instance, series, 0), Point(0, 0.0), Point(1, 0.0), Point(2, 3.0);
      var log := EarlyRows(instance, series)[Key(instance, series, 2) := Plain(3.0)];
      && Points(GroupRows(EarlyRows(instance, series), k)) == [p, q]
      && Points(GroupRows(log, k)) == [p, q, r]
  {
    hide RowsIn;
    var early := EarlyRows(instance, series);
    var log := early[Key(instance, series, 2) := Plain(3.0)];
    RowsNext(early, instance, series, 0, 0, BUCKET_MS);
    RowsNext(early, instance, series, 1, 1, BUCKET_MS);
    RowsNone(early, instance, series, 2, BUCKET_MS);
    RowsNext(log, instance, series, 0, 0, BUCKET_MS);
    RowsNext(log, instance, series, 1, 1, BUCKET_MS);
    RowsNext(log, instance, series, 2, 2, BUCKET_MS);
    RowsNone(log, instance, series, 3, BUCKET_MS);
  }

  /** The minute's one row after the first pass. */
  lemma LateRunCollapsed(instance: string, series: string)
    requires KindOf(series) == Gauge
    ensures Collapsed(EarlyRows(instance, series), DAY_MS) == map[Key(instance, series, 0) := Plain(0.0)]
  {
    hide KindOf, Collapsed, RowsIn, Summary, BucketStart;
    var k, early := Key(instance, series, 0), EarlyRows(instance, series);
    var p, q := Point(0, 0.0), Point(1, 0.0);
    LateRunRaw(instance, series);
    SumOfThree(p, q, q);
    var rows := GroupRows(early, k);
    RowsExact(early, instance, series, 0, BUCKET_MS);
    assert rows[|rows| - 1] in rows;
    assert Aggregate(Gauge, rows) == Plain(0.0);
    forall s
      ensures s in Collapsed(early, DAY_MS) <==> s == k
      ensures s == k ==> s in Collapsed(early, DAY_MS) && Collapsed(early, DAY_MS)[s] == Plain(0.0)
    {
      CollapsedMeaning(early, DAY_MS, s);
      if s != k && s.ts < DAY_MS && Aligned(s.ts) {
        RowsNone(early, s.instance, s.series, s.ts, s.ts + BUCKET_MS);
      }
    }
  }

  /** The minute the second pass sees: the earlier mean and the late reading. */
  lemma LateRunSeen(instance: string, series: string)
    ensures var late := map[Key(instance, series, 0) := Plain(0.0), Key(instance, series, 2) := Plain(3.0)];
      Points(GroupRows(late, Key(instance, series, 0))) == [Point(0, 0.0), Point(2, 3.0)]
  {
    hide RowsIn;
    var late := map[Key(instance, series, 0) := Plain(0.0), Key(instance, series, 2) := Plain(3.0)];
    RowsNext(late, instance, series, 0, 0, BUCKET_MS);
    RowsNext(late, instance, series, 1, 2, BUCKET_MS);
    RowsNone(late, instance, series, 3, BUCKET_MS);
  }

  /** A gauge sample written late into a collapsed minute is averaged against an average. */
  lemma LateWriteAveragedTwice(instance: string, series: string)
    requires KindOf(series) == Gauge
    ensures var ops, k := LateRun(instance, series), Key(instance, series, 0);
      && k in Replay(ops) && Replay(ops)[k].value == 1.5
      && GroupRows(HistoryOf(ops).log, k) != []
      && Summary(Gauge, Points(GroupRows(HistoryOf(ops).log, k))) == 1.0
  {
    hide KindOf, Collapsed, GroupRows, Summary, Replay, HistoryOf, LateRun, BucketStart, Points;
    var k := Key(instance, series, 0);
    var p, q, r := Point(0, 0.0), Point(1, 0.0), Point(2, 3.0);
    var late := map[k := Plain(0.0), Key(instance, series, 2) := Plain(3.0)];
    LateRunSteps(instance, series);
    LateRunRaw(instance, series);
    LateRunCollapsed(instance, series);
    LateRunSeen(instance, series);
    assert Insert(map[k := Plain(0.0)], Reading(instance, series, 2, 3.0)) == late;
    SumOfThree(p, q, r);
    SumOfThree(p, r, r);
    CollapsedMeaning(late, DAY_MS, k);
  }
}
