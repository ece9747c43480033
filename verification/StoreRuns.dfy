/**
 Whole runs of the store: any sequence of sample writes and maintenance passes. The table is tied to
 a log of raw samples that is never compacted, so what each row stands for can be said at any point. A run
 is on time when no sample is written below a cutoff already used; what happens to the samples of the
 other runs is the subject of `LateWrites`.
 */
module StoreRuns {
  import opened Prelude
  import opened Bucketing
  import opened Catalog
  import opened CatalogNames
  import opened Store
  import opened Compaction

  /** A batch is its samples in order; nothing interleaves inside a transaction. */
  datatype Op = Put(sample: Sample) | Pass(now: Millis, retentionDays: nat)

  function Apply(t: Table, op: Op): Table {
    match op
    case Put(sample) => Insert(t, sample)
    case Pass(now, retentionDays) => Maintained(t, now, retentionDays)
  }

  function Replay(ops: seq<Op>): Table {
    if ops == [] then map[] else Apply(Replay(ops[..|ops| - 1]), ops[|ops| - 1])
  }

  function Puts(samples: seq<Sample>): seq<Op> {
    seq(|samples|, i requires 0 <= i < |samples| => Put(samples[i]))
  }

  lemma PutsSnoc(ops: seq<Op>, front: seq<Sample>, last: Sample)
    ensures ops + Puts(front + [last]) == (ops + Puts(front)) + [Put(last)]
  {
  }

  lemma ReplaySnoc(ops: seq<Op>, last: Op)
    ensures Replay(ops + [last]) == Apply(Replay(ops), last)
  {
    hide Apply;
    assert (ops + [last])[..|ops|] == ops;
  }

  /** `WriteBatch` is the run of its samples' writes. */
  lemma {:induction false} BatchIsRun(ops: seq<Op>, samples: seq<Sample>)
    ensures Replay(ops + Puts(samples)) == Written(Replay(ops), samples)
  {
    hide Replay, Puts, Insert, Maintained;
    if samples == [] {
      NoPuts();
      assert ops + [] == ops;
    } else {
      var front, last := samples[..|samples| - 1], samples[|samples| - 1];
      assert samples == front + [last];
      BatchIsRun(ops, front);
      PutsSnoc(ops, front, last);
      ReplaySnoc(ops + Puts(front), Put(last));
    }
  }

  lemma NoPuts()
    ensures Puts([]) == []
  {
  }

  /** Raw samples still represented, and the highest cutoff any pass has used. */
  datatype History = History(log: Table, high: int)

  /**
   What a pass forgets: a raw row older than the expiry, or a whole collapsed bucket whose start is.
   */
  function Kept(ts: nat, high: int, expiry: int): bool {
    (if ts < high then BucketStart(ts) else ts) >= expiry
  }

  function KeepLog(log: Table, high: int, expiry: int): Table {
    map k | k in log && Kept(k.ts, high, expiry) :: log[k]
  }

  function Remember(h: History, op: Op): History {
    match op
    case Put(sample) => h.(log := Insert(h.log, sample))
    case Pass(now, retentionDays) =>
      History(KeepLog(h.log, h.high, Expiry(now, retentionDays)), Max(h.high, Cutoff(now)))
  }

  function HistoryOf(ops: seq<Op>): History {
    if ops == [] then History(map[], 0) else Remember(HistoryOf(ops[..|ops| - 1]), ops[|ops| - 1])
  }

  /** No write lands below a cutoff already used. */
  ghost predicate OnTime(ops: seq<Op>) {
    forall i :: 0 <= i < |ops| && ops[i].Put? ==> ops[i].sample.ts >= HistoryOf(ops[..i]).high
  }

  lemma OnTimePrefix(ops: seq<Op>)
    requires ops != [] && OnTime(ops)
    ensures OnTime(ops[..|ops| - 1])
    ensures var last := ops[|ops| - 1];
      last.Put? ==> last.sample.ts >= HistoryOf(ops[..|ops| - 1]).high
  {
    hide HistoryOf;
    var front := ops[..|ops| - 1];
    forall i | 0 <= i < |front| && front[i].Put?
      ensures front[i].sample.ts >= HistoryOf(front[..i]).high
    {
      assert ops[i] == front[i] && front[..i] == ops[..i];
    }
  }

  // ---- the log, said directly ---------------------------------------------------

  ghost predicate PutAt(ops: seq<Op>, i: int, k: Key) {
    0 <= i < |ops| && ops[i].Put? && ops[i].sample.KeyOf() == k
  }

  ghost predicate LastPutAt(ops: seq<Op>, i: int, k: Key) {
    PutAt(ops, i, k) && forall j :: i < j < |ops| ==> !PutAt(ops, j, k)
  }

  ghost predicate SurvivesAt(ops: seq<Op>, j: int, k: Key)
    requires 0 <= j < |ops|
  {
    ops[j].Pass? ==> Kept(k.ts, HistoryOf(ops[..j]).high, Expiry(ops[j].now, ops[j].retentionDays))
  }

  ghost predicate SurvivesSince(ops: seq<Op>, i: int, k: Key) {
    forall j :: 0 <= j < |ops| && i < j ==> SurvivesAt(ops, j, k)
  }

  /** The log holds exactly the last raw write of each key that every later pass retained. */
  lemma {:induction false} LogMeaning(ops: seq<Op>, k: Key)
    ensures k in HistoryOf(ops).log <==> exists i :: LastPutAt(ops, i, k) && SurvivesSince(ops, i, k)
    ensures forall i :: LastPutAt(ops, i, k) && k in HistoryOf(ops).log ==> HistoryOf(ops).log[k] == ops[i].sample.RowOf()
  {
    if ops != [] {
      var front, last, n := ops[..|ops| - 1], ops[|ops| - 1], |ops| - 1;
      LogMeaning(front, k);
      hide Expiry, Cutoff, Kept;
      var before, after := HistoryOf(front), HistoryOf(ops);
      assert after == Remember(before, last);
      hide HistoryOf;
      forall i | 0 <= i < n
        ensures PutAt(ops, i, k) <==> PutAt(front, i, k)
        ensures SurvivesAt(ops, i, k) <==> SurvivesAt(front, i, k)
      {
        assert front[i] == ops[i] && front[..i] == ops[..i];
      }
      assert SurvivesAt(ops, n, k) <==> (last.Pass? ==> Kept(k.ts, before.high, Expiry(last.now, last.retentionDays)));
      hide SurvivesAt;
      if last.Put? && last.sample.KeyOf() == k {
        assert LastPutAt(ops, n, k) && SurvivesSince(ops, n, k);
      } else {
        assert !PutAt(ops, n, k);
        hide PutAt;
        forall i | 0 <= i < n
          ensures LastPutAt(ops, i, k) <==> LastPutAt(front, i, k)
          ensures SurvivesSince(ops, i, k) <==> SurvivesSince(front, i, k) && SurvivesAt(ops, n, k)
        {
          SinceLater(ops, i, n, k);
        }
        forall i | LastPutAt(ops, i, k) || LastPutAt(front, i, k)
          ensures 0 <= i < n
        {
          PutInRange(ops, front, i, n, k);
        }
        LogStep(before, last, k);
        hide LastPutAt, SurvivesSince, Remember;
      }
    }
  }

  lemma PutInRange(ops: seq<Op>, front: seq<Op>, i: int, n: int, k: Key)
    requires n == |front| && |ops| == n + 1 && !PutAt(ops, n, k)
    requires LastPutAt(ops, i, k) || LastPutAt(front, i, k)
    ensures 0 <= i < n
  {
  }

  lemma SinceLater(ops: seq<Op>, i: int, n: int, k: Key)
    requires 0 <= i < n && |ops| == n + 1 && !PutAt(ops, n, k)
    requires forall j :: 0 <= j < n ==> (PutAt(ops, j, k) <==> PutAt(ops[..n], j, k))
    requires forall j :: 0 <= j < n ==> (SurvivesAt(ops, j, k) <==> SurvivesAt(ops[..n], j, k))
    ensures LastPutAt(ops, i, k) <==> LastPutAt(ops[..n], i, k)
    ensures SurvivesSince(ops, i, k) <==> SurvivesSince(ops[..n], i, k) && SurvivesAt(ops, n, k)
  {
    hide PutAt, SurvivesAt;
  }

  lemma LogStep(before: History, op: Op, k: Key)
    requires !(op.Put? && op.sample.KeyOf() == k)
    ensures var after := Remember(before, op);
      && (k in after.log <==> k in before.log && (op.Pass? ==> Kept(k.ts, before.high, Expiry(op.now, op.retentionDays))))
      && (k in after.log ==> after.log[k] == before.log[k])
  {
  }

  // ---- the run invariant -----------------------------------------------------------

  /** A write at or above the cutoff commutes with compaction. */
  lemma PutCommutes(log: Table, high: int, sample: Sample)
    requires Aligned(high) && sample.ts >= high
    ensures Insert(Collapsed(log, high), sample) == Collapsed(Insert(log, sample), high)
  {
    hide KindOf, Collapsed, RowsIn, Aggregate;
    var more := Insert(log, sample);
    var x, y := Insert(Collapsed(log, high), sample), Collapsed(more, high);
    forall k
      ensures k in x <==> k in y
      ensures k in x ==> x[k] == y[k]
    {
      CollapsedMeaning(log, high, k);
      CollapsedMeaning(more, high, k);
      if k.ts < high && Aligned(k.ts) {
        AlignedBelow(k.ts, high);
        RowsSame(log, more, k.instance, k.series, k.ts, k.ts + BUCKET_MS);
      }
    }
  }

  /** A bucket start lies in no bucket but its own. */
  lemma OtherStart(start: int, other: int)
    requires Aligned(start) && Aligned(other)
    ensures start <= other < start + BUCKET_MS ==> other == start
  {
  }

  /** A bucket collapsed earlier, after a later expiry: its one row, or nothing. */
  lemma OldCell(log: Table, high: int, expiry: int, k: Key)
    requires Aligned(high) && Aligned(k.ts) && k.ts < high
    ensures GroupRows(KeepLog(log, high, expiry), k) == if k.ts >= expiry then GroupRows(log, k) else []
    ensures GroupRows(Expire(Collapsed(log, high), expiry), k) ==
      if k.ts >= expiry then GroupRows(Collapsed(log, high), k) else []
  {
    hide KindOf, Collapsed, RowsIn, Aggregate;
    var end := k.ts + BUCKET_MS;
    AlignedBelow(k.ts, high);
    var kept := KeepLog(log, high, expiry);
    var x := Collapsed(log, high);
    var live := Expire(x, expiry);
    forall ts: nat | k.ts <= ts < end
      ensures Kept(ts, high, expiry) <==> k.ts >= expiry
    {
      BucketOfMember(k.ts, ts);
    }
    forall ts: nat | k.ts <= ts < end
      ensures Key(k.instance, k.series, ts) in x ==> ts == k.ts
    {
      CollapsedMeaning(log, high, Key(k.instance, k.series, ts));
      if ts > k.ts {
        NotAligned(k.ts, ts);
      }
    }
    if k.ts >= expiry {
      RowsSame(kept, log, k.instance, k.series, k.ts, end);
      RowsSame(live, x, k.instance, k.series, k.ts, end);
    } else {
      RowsNone(kept, k.instance, k.series, k.ts, end);
      RowsNone(live, k.instance, k.series, k.ts, end);
    }
  }

  lemma NotAligned(start: int, ts: int)
    requires Aligned(start) && start < ts < start + BUCKET_MS
    ensures !Aligned(ts)
  {
  }

  /** A bucket not collapsed before: the pass sees exactly its raw rows that it retains. */
  lemma NewCell(log: Table, high: int, expiry: int, k: Key)
    requires Aligned(high) && Aligned(k.ts) && k.ts >= high
    ensures GroupRows(KeepLog(log, high, expiry), k) == GroupRows(Expire(Collapsed(log, high), expiry), k)
  {
    hide KindOf, Collapsed, RowsIn, Aggregate;
    var end := k.ts + BUCKET_MS;
    var kept, live := KeepLog(log, high, expiry), Expire(Collapsed(log, high), expiry);
    forall ts: nat | k.ts <= ts < end
      ensures var s := Key(k.instance, k.series, ts);
        (s in kept <==> s in live) && (s in kept ==> kept[s] == live[s])
    {
      CollapsedMeaning(log, high, Key(k.instance, k.series, ts));
    }
    RowsSame(kept, live, k.instance, k.series, k.ts, end);
  }

  /** The aggregate of a bucket's one aggregate row is that row: no bucket is averaged twice. */
  lemma AggregateOnce(log: Table, high: int, k: Key)
    requires Aligned(high) && Aligned(k.ts) && k.ts < high
    ensures var again := GroupRows(Collapsed(log, high), k);
      && (again == [] <==> GroupRows(log, k) == [])
      && (again != [] ==> Aggregate(KindOf(k.series), again) == Aggregate(KindOf(k.series), GroupRows(log, k)))
  {
    hide KindOf, Collapsed, RowsIn, Summary;
    CollapsedCell(log, high, k.instance, k.series, k.ts);
    var cell := GroupRows(log, k);
    if cell != [] {
      var row := Aggregate(KindOf(k.series), cell);
      SingleSummary(KindOf(k.series), Point(k.ts, row.value));
      assert Points([Stamped(k.ts, row)]) == [Point(k.ts, row.value)];
    }
  }

  /** One pass over the compacted table is compaction of what the log keeps, at the higher cutoff. */
  lemma PassCommutes(log: Table, high: int, expiry: int, cutoff: int)
    requires Aligned(high) && Aligned(cutoff)
    ensures Collapsed(Expire(Collapsed(log, high), expiry), cutoff) ==
      Collapsed(KeepLog(log, high, expiry), Max(high, cutoff))
  {
    hide KindOf, Collapsed, GroupRows, Aggregate;
    var live, kept := Expire(Collapsed(log, high), expiry), KeepLog(log, high, expiry);
    var x, y := Collapsed(live, cutoff), Collapsed(kept, Max(high, cutoff));
    forall k
      ensures k in x <==> k in y
      ensures k in x ==> x[k] == y[k]
    {
      PassAt(log, high, expiry, cutoff, k);
    }
  }

  lemma PassAt(log: Table, high: int, expiry: int, cutoff: int, k: Key)
    requires Aligned(high) && Aligned(cutoff)
    ensures var x := Collapsed(Expire(Collapsed(log, high), expiry), cutoff);
      var y := Collapsed(KeepLog(log, high, expiry), Max(high, cutoff));
      (k in x <==> k in y) && (k in x ==> x[k] == y[k])
  {
    hide KindOf, Collapsed, GroupRows, Aggregate, BucketStart;
    var live, kept := Expire(Collapsed(log, high), expiry), KeepLog(log, high, expiry);
    CollapsedMeaning(live, cutoff, k);
    CollapsedMeaning(kept, Max(high, cutoff), k);
    CollapsedMeaning(log, high, k);
    if k.ts < Max(high, cutoff) && Aligned(k.ts) {
      if k.ts < high {
        OldCell(log, high, expiry, k);
        AggregateOnce(log, high, k);
      } else {
        NewCell(log, high, expiry, k);
      }
    }
  }

  /** After any on-time run the table is exactly the compaction of the log at the highest cutoff used. */
  lemma {:induction false} RunIsCompactedLog(ops: seq<Op>)
    requires OnTime(ops)
    ensures Aligned(HistoryOf(ops).high)
    ensures Replay(ops) == Collapsed(HistoryOf(ops).log, HistoryOf(ops).high)
  {
    hide Collapsed, Cutoff, Expiry;
    if ops == [] {
      EmptyTable();
    } else {
      OnTimePrefix(ops);
      var front, last := ops[..|ops| - 1], ops[|ops| - 1];
      RunIsCompactedLog(front);
      var h := HistoryOf(front);
      match last {
        case Put(sample) => PutCommutes(h.log, h.high, sample);
        case Pass(now, retentionDays) =>
          CutoffAligned(now);
          PassCommutes(h.log, h.high, Expiry(now, retentionDays), Cutoff(now));
      }
    }
  }

  lemma EmptyTable()
    ensures Collapsed(map[], 0) == map[]
  {
    assert Compact(map[], 0);
    CompactIsFixed(map[], 0);
  }

  /**
   What every stored row is, after any on-time run: at or above the highest cutoff, the last raw
   write of its key; below it, bucket-aligned and the mean (gauge) or last value (counter) of exactly
   the logged raw samples of its bucket, tagged as the newest of them.
   */
  lemma EveryRowAccounted(ops: seq<Op>, k: Key)
    requires OnTime(ops)
    ensures var t, h := Replay(ops), HistoryOf(ops);
      if k.ts >= h.high then
        (k in t <==> k in h.log) && (k in t ==> t[k] == h.log[k])
      else
        && (k in t <==> Aligned(k.ts) && GroupRows(h.log, k) != [])
        && (k in t ==>
              && t[k].value == Summary(KindOf(k.series), Points(GroupRows(h.log, k)))
              && t[k].honesty == GroupRows(h.log, k)[|GroupRows(h.log, k)| - 1].row.honesty
              && t[k].source == GroupRows(h.log, k)[|GroupRows(h.log, k)| - 1].row.source)
  {
    hide KindOf, Collapsed, GroupRows, Summary, HistoryOf, Replay;
    RunIsCompactedLog(ops);
    CollapsedMeaning(HistoryOf(ops).log, HistoryOf(ops).high, k);
  }

  /**
   The same by what the catalog says of a series: below the highest cutoff a counter's row is its bucket's
   newest logged value, a gauge's the mean of its bucket's logged values.
   */
  lemma CataloguedRowAccounted(ops: seq<Op>, e: Series, k: Key)
    requires OnTime(ops) && e in All() && k.series == e.name
    requires k.ts < HistoryOf(ops).high && k in Replay(ops)
    ensures var rows, value := GroupRows(HistoryOf(ops).log, k), Replay(ops)[k].value;
      && rows != []
      && (e.kind == Counter ==> value == rows[|rows| - 1].row.value)
      && (e.kind == Gauge ==> value == Sum(Points(rows)) / |rows| as real)
  {
    hide KindOf, GroupRows, HistoryOf, Replay, All, Sum;
    EveryRowAccounted(ops, k);
    EntryFound(e);
  }

  /** A query resamples a catalogued series as its entry says. */
  lemma CataloguedAnswer(t: Table, e: Series, instance: string, fromMs: int, toMs: int, stepS: int)
    requires e in All()
    ensures SeriesAnswer(t, instance, e.name, fromMs, toMs, stepS).points ==
      Resampled(Points(RowsIn(t, instance, e.name, fromMs, toMs + 1)), stepS, e.kind)
  {
    hide KindOf, RowsIn, Resampled, All, Tags;
    EntryFound(e);
  }

  /**
   However often the store was compacted, a coarse query over an aligned window answers from it
   exactly as from the uncompacted log, and claims no tag the log does not carry.
   */
  lemma CoarseQueriesForgetCompaction(ops: seq<Op>, instance: string, series: string, fromMs: int, toMs: int, stepS: int)
    requires OnTime(ops) && Aligned(fromMs) && Aligned(toMs + 1)
    requires CoarseStep(KindOf(series), stepS)
    ensures var stored := SeriesAnswer(Replay(ops), instance, series, fromMs, toMs, stepS);
      var raw := SeriesAnswer(HistoryOf(ops).log, instance, series, fromMs, toMs, stepS);
      && stored.points == raw.points
      && forall tag :: tag in stored.honesty ==> tag in raw.honesty
  {
    hide KindOf, Collapsed, HistoryOf, Replay, SeriesAnswer;
    RunIsCompactedLog(ops);
    CoarsePointsSame(HistoryOf(ops).log, HistoryOf(ops).high, instance, series, fromMs, toMs, stepS);
    CoarseTagsSubset(HistoryOf(ops).log, HistoryOf(ops).high, instance, series, fromMs, toMs, stepS);
  }
}
