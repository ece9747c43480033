/** What a query reads back from the store after one tick's batch of samples was written. */
module ReadBack {
  import opened Bucketing
  import opened Catalog
  import opened Store

  ghost predicate DistinctSeries(batch: seq<Sample>) {
    forall i, j :: 0 <= i < j < |batch| ==> batch[i].series != batch[j].series
  }

  lemma DistinctAppend(a: seq<Sample>, b: seq<Sample>)
    requires DistinctSeries(a) && DistinctSeries(b)
    requires forall s, r :: s in a && r in b ==> s.series != r.series
    ensures DistinctSeries(a + b)
  {
    var c := a + b;
    forall i, j | 0 <= i < j < |c|
      ensures c[i].series != c[j].series
    {
      if i < |a| <= j {
        assert a[i] in a && b[j - |a|] in b;
      }
    }
  }

  /** Every sample of the batch is of this instance and instant. */
  ghost predicate OneTick(batch: seq<Sample>, instance: string, ts: nat) {
    forall s :: s in batch ==> s.instance == instance && s.ts == ts
  }

  lemma {:induction false} WrittenElsewhere(t: Table, batch: seq<Sample>, k: Key)
    requires forall s :: s in batch ==> s.KeyOf() != k
    ensures k in Written(t, batch) <==> k in t
    ensures k in t ==> Written(t, batch)[k] == t[k]
  {
    if batch != [] {
      var front, last := batch[..|batch| - 1], batch[|batch| - 1];
      assert batch == front + [last];
      WrittenElsewhere(t, front, k);
    }
  }

  lemma {:induction false} WrittenHolds(t: Table, batch: seq<Sample>, s: Sample)
    requires DistinctSeries(batch) && s in batch
    ensures s.KeyOf() in Written(t, batch) && Written(t, batch)[s.KeyOf()] == s.RowOf()
  {
    var front, last := batch[..|batch| - 1], batch[|batch| - 1];
    assert batch == front + [last];
    if s != last {
      assert s in front;
      WrittenHolds(t, front, s);
      var i :| 0 <= i < |front| && front[i] == s;
      assert batch[i] == s;
    }
  }

  /** At its own instant a sample just written reads back as it is: its value, and its honesty alone. */
  lemma SampleReadBack(t: Table, batch: seq<Sample>, instance: string, ts: nat, s: Sample)
    requires DistinctSeries(batch) && OneTick(batch, instance, ts) && s in batch
    ensures SeriesAnswer(Written(t, batch), instance, s.series, ts, ts, NATIVE_STEP_S) ==
      SeriesData([Point(ts, s.value)], [s.honesty])
  {
    hide RowsIn, KindOf, Written;
    var after := Written(t, batch);
    WrittenHolds(t, batch, s);
    RowsNext(after, instance, s.series, ts, ts, ts + 1);
    RowsNone(after, instance, s.series, ts + 1, ts + 1);
    var rows := [Stamped(ts, s.RowOf())];
    assert RowsIn(after, instance, s.series, ts, ts + 1) == rows;
    assert Points(rows) == [Point(ts, s.value)];
    assert rows[..0] == [];
    TagsRoundTrip(HonestyText(s.honesty), s.honesty);
    assert Tags(rows) == [s.honesty];
  }

  /** A series the batch does not name answers every query as before. */
  lemma OthersReadAsBefore(t: Table, batch: seq<Sample>, instance: string, series: string, fromMs: int, toMs: int, stepS: int)
    requires forall s :: s in batch ==> s.series != series
    ensures SeriesAnswer(Written(t, batch), instance, series, fromMs, toMs, stepS) ==
      SeriesAnswer(t, instance, series, fromMs, toMs, stepS)
  {
    hide RowsIn, KindOf, Written;
    forall ts: nat
      ensures var k := Key(instance, series, ts);
        (k in Written(t, batch) <==> k in t) && (k in t ==> Written(t, batch)[k] == t[k])
    {
      WrittenElsewhere(t, batch, Key(instance, series, ts));
    }
    RowsSame(Written(t, batch), t, instance, series, fromMs, toMs + 1);
  }
}
