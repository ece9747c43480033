/**
 The rolling history store: one table keyed by (instance, series, ts), written by
 insert-or-replace, read by range, and maintained by a pass that expires and then collapses rows
 in place. Commands are atomic: one thread owns the connection.
 */
module Store {
  import opened Prelude
  import opened Bucketing
  import opened Catalog

  const BUCKET_MS := 60_000
  const DAY_MS := 24 * 60 * 60 * 1000
  const RAW_WINDOW_MS := 24 * 60 * 60 * 1000
  const NATIVE_STEP_S := 1
  const I64_MAX := 0x7FFF_FFFF_FFFF_FFFF
  const I64_MIN := -0x8000_0000_0000_0000

  /** An `i64` millisecond clock reading; `now_ms` is never negative. */
  type Millis = x: int | 0 <= x <= 0x7FFF_FFFF_FFFF_FFFF

  /** Primary key. Sample timestamps come from `now_ms`, which is never negative. */
  datatype Key = Key(instance: string, series: string, ts: nat)

  datatype Row = Row(value: real, source: string, honesty: string)

  type Table = map<Key, Row>

  datatype Sample = Sample(
    instance: string,
    series: string,
    ts: nat,
    value: real,
    source: Source,
    honesty: Honesty)
  {
    function KeyOf(): Key {
      Key(instance, series, ts)
    }

    function RowOf(): Row {
      Row(value, SourceText(source), HonestyText(honesty))
    }
  }

  datatype Maintenance = Maintenance(bucketsRewritten: nat, rowsCollapsed: nat, rowsExpired: nat)

  // ---- range scans -----------------------------------------------------

  datatype Stamped = Stamped(ts: int, row: Row)

  /** The rows of one series with `lo <= ts < hi`, ordered by ts. */
  function RowsIn(t: Table, instance: string, series: string, lo: int, hi: int): seq<Stamped>
    decreases hi - lo
  {
    if lo >= hi then []
    else
      (if lo >= 0 && Key(instance, series, lo) in t then [Stamped(lo, t[Key(instance, series, lo)])] else [])
      + RowsIn(t, instance, series, lo + 1, hi)
  }

  function Points(rows: seq<Stamped>): (points: seq<Point>)
    ensures |points| == |rows|
    ensures forall i :: 0 <= i < |rows| ==> points[i] == Point(rows[i].ts, rows[i].row.value)
  {
    seq(|rows|, i requires 0 <= i < |rows| => Point(rows[i].ts, rows[i].row.value))
  }

  // ---- the maintenance pass --------------------------------------------

  /** SQLite's `(ts / 60000) * 60000`; timestamps are non-negative, so truncation is flooring. */
  function BucketStart(ts: nat): nat {
    ts / BUCKET_MS * BUCKET_MS
  }

  /** The row a key collapses into, which is also how a (instance, series, bucket) group is named. */
  function GroupOf(k: Key): Key {
    k.(ts := BucketStart(k.ts))
  }

  function GroupRows(t: Table, g: Key): seq<Stamped> {
    RowsIn(t, g.instance, g.series, g.ts, g.ts + BUCKET_MS)
  }

  /** What a bucket becomes: gauge mean or counter last, tagged as its newest row was. */
  function Aggregate(kind: Kind, rows: seq<Stamped>): Row
    requires rows != []
  {
    rows[|rows| - 1].row.(value := Summary(kind, Points(rows)))
  }

  function SaturatingI64(x: int): int {
    if x > I64_MAX then I64_MAX else if x < I64_MIN then I64_MIN else x
  }

  /** Rows before this are dropped. Both operations clamp, so no retention is long enough to wrap around. */
  function Expiry(now: Millis, retentionDays: nat): int {
    SaturatingI64(now - SaturatingI64(Min(retentionDays, I64_MAX) * DAY_MS))
  }

  /** The start of the bucket the raw window opens in: buckets below it can receive no more on-time rows. */
  function Cutoff(now: Millis): int {
    FloorTo(now - RAW_WINDOW_MS, BUCKET_MS)
  }

  function ExpiredKeys(t: Table, expiry: int): set<Key> {
    set k | k in t && k.ts < expiry
  }

  function Expire(t: Table, expiry: int): Table {
    t - ExpiredKeys(t, expiry)
  }

  function Groups(t: Table, cutoff: int): set<Key> {
    set k | k in t && k.ts < cutoff :: GroupOf(k)
  }

  ghost predicate AlignedGroups(t: Table, gs: set<Key>) {
    forall g :: g in gs ==> g.ts % BUCKET_MS == 0 && GroupRows(t, g) != []
  }

  /** Every group in `gs` replaced by its aggregate, everything else as it was. */
  function CollapseGroups(t: Table, gs: set<Key>): Table
    requires AlignedGroups(t, gs)
  {
    map k | k in gs + (set k | k in t && GroupOf(k) !in gs) ::
      if k in gs then Aggregate(KindOf(k.series), GroupRows(t, k)) else t[k]
  }

  function Collapsed(t: Table, cutoff: int): Table {
    GroupsAligned(t, cutoff);
    CollapseGroups(t, Groups(t, cutoff))
  }

  function Maintained(t: Table, now: Millis, retentionDays: nat): Table {
    Collapsed(Expire(t, Expiry(now, retentionDays)), Cutoff(now))
  }

  /** A bucket already holding one row at its own start: the pass skips it. */
  predicate Settled(t: Table, g: Key) {
    var rows := GroupRows(t, g);
    |rows| == 1 && rows[0].ts == g.ts
  }

  function StaleGroups(t: Table, cutoff: int): set<Key> {
    set g | g in Groups(t, cutoff) && !Settled(t, g)
  }

  function StaleRows(t: Table, cutoff: int): set<Key> {
    set k | k in t && GroupOf(k) in StaleGroups(t, cutoff)
  }

  function Report(t: Table, now: Millis, retentionDays: nat): Maintenance {
    var live := Expire(t, Expiry(now, retentionDays));
    Maintenance(
      |StaleGroups(live, Cutoff(now))|,
      |StaleRows(live, Cutoff(now))|,
      |ExpiredKeys(t, Expiry(now, retentionDays))|)
  }

  /** A row expires exactly when it is more than the retention old, however long the retention. */
  lemma ExpiryExactly(now: Millis, retentionDays: nat, ts: nat)
    ensures ts < Expiry(now, retentionDays) <==> ts + retentionDays * 86_400_000 < now
  {
    assert Min(retentionDays, I64_MAX) * DAY_MS <= retentionDays * 86_400_000;
  }

  /** A row is collapsed exactly when its minute ended a day ago or more. */
  lemma CutoffExactly(now: Millis, ts: nat)
    ensures ts < Cutoff(now) <==> ts / 60_000 * 60_000 + 60_000 <= now - 86_400_000
  {
    var edge := now - 86_400_000;
    FloorBounds(ts, 60_000);
    FloorBounds(edge, 60_000);
    if ts < Cutoff(now) {
      FloorMonotone(ts, edge, 60_000);
    }
    assert Cutoff(now) == FloorTo(edge, 60_000);
    Multiples(FloorTo(ts, 60_000), FloorTo(edge, 60_000));
  }

  lemma Multiples(a: int, b: int)
    requires a % 60_000 == 0 && b % 60_000 == 0
    ensures a < b ==> a + 60_000 <= b
  {
  }

  // ---- scan lemmas -------------------------------------------------------

  lemma {:induction false} RowsSplit(t: Table, instance: string, series: string, lo: int, mid: int, hi: int)
    requires lo <= mid <= hi
    ensures RowsIn(t, instance, series, lo, hi) ==
      RowsIn(t, instance, series, lo, mid) + RowsIn(t, instance, series, mid, hi)
    decreases mid - lo
  {
    if lo < mid {
      RowsSplit(t, instance, series, lo + 1, mid, hi);
      var first := if lo >= 0 && Key(instance, series, lo) in t
                   then [Stamped(lo, t[Key(instance, series, lo)])] else [];
      hide RowsIn;
      var x, y := RowsIn(t, instance, series, lo + 1, mid), RowsIn(t, instance, series, mid, hi);
      assert first + (x + y) == (first + x) + y;
    }
  }

  /** A scan depends only on the rows it covers. */
  lemma {:induction false} RowsSame(t: Table, u: Table, instance: string, series: string, lo: int, hi: int)
    requires forall ts: nat :: lo <= ts < hi ==>
      var k := Key(instance, series, ts); (k in t <==> k in u) && (k in t ==> t[k] == u[k])
    ensures RowsIn(t, instance, series, lo, hi) == RowsIn(u, instance, series, lo, hi)
    decreases hi - lo
  {
    if lo < hi {
      if lo >= 0 {
        var k := Key(instance, series, lo);
        assert (k in t <==> k in u) && (k in t ==> t[k] == u[k]);
      }
      RowsSame(t, u, instance, series, lo + 1, hi);
    }
  }

  ghost predicate StoredIn(t: Table, instance: string, series: string, lo: int, hi: int, r: Stamped) {
    && lo <= r.ts < hi && 0 <= r.ts
    && Key(instance, series, r.ts) in t
    && r.row == t[Key(instance, series, r.ts)]
  }

  /** A scan returns exactly the rows of the range. */
  lemma {:induction false} RowsExact(t: Table, instance: string, series: string, lo: int, hi: int)
    ensures forall r :: r in RowsIn(t, instance, series, lo, hi) <==> StoredIn(t, instance, series, lo, hi, r)
    decreases hi - lo
  {
    if lo < hi {
      RowsExact(t, instance, series, lo + 1, hi);
      forall r
        ensures r in RowsIn(t, instance, series, lo, hi) <==> StoredIn(t, instance, series, lo, hi, r)
      {
        assert r.ts != lo ==> (StoredIn(t, instance, series, lo, hi, r) <==> StoredIn(t, instance, series, lo + 1, hi, r));
      }
    }
  }

  /** A scan is in strictly increasing ts order. */
  lemma {:induction false} PointsOrdered(t: Table, instance: string, series: string, lo: int, hi: int)
    ensures Ordered(Points(RowsIn(t, instance, series, lo, hi)))
    decreases hi - lo
  {
    if lo < hi {
      PointsOrdered(t, instance, series, lo + 1, hi);
      RowsExact(t, instance, series, lo + 1, hi);
      var rest := RowsIn(t, instance, series, lo + 1, hi);
      if lo >= 0 && Key(instance, series, lo) in t {
        var first := Stamped(lo, t[Key(instance, series, lo)]);
        PointsAppend([first], rest);
        forall p | p in Points(rest) ensures lo < p.ts {
          var i :| 0 <= i < |rest| && p == Points(rest)[i];
          assert rest[i] in rest;
        }
        assert Points([first]) == [Point(lo, first.row.value)];
        OrderedCons(Point(lo, first.row.value), Points(rest));
      }
    }
  }

  lemma ScanBounds(t: Table, instance: string, series: string, lo: int, hi: int)
    ensures forall p :: p in Points(RowsIn(t, instance, series, lo, hi)) ==> lo <= p.ts < hi
  {
    RowsExact(t, instance, series, lo, hi);
    var rows := RowsIn(t, instance, series, lo, hi);
    hide RowsIn;
    forall p | p in Points(rows) ensures lo <= p.ts < hi {
      var i :| 0 <= i < |rows| && p == Points(rows)[i];
      assert rows[i] in rows;
    }
  }

  lemma PointsAppend(a: seq<Stamped>, b: seq<Stamped>)
    ensures Points(a + b) == Points(a) + Points(b)
  {
  }

  /** An empty range scans to nothing. */
  lemma {:induction false} RowsNone(t: Table, instance: string, series: string, lo: int, hi: int)
    requires forall ts: nat :: lo <= ts < hi ==> Key(instance, series, ts) !in t
    ensures RowsIn(t, instance, series, lo, hi) == []
    decreases hi - lo
  {
    if lo < hi {
      RowsNone(t, instance, series, lo + 1, hi);
    }
  }

  /** The first stored row of a range comes first in its scan. */
  lemma RowsNext(t: Table, instance: string, series: string, lo: int, ts: nat, hi: int)
    requires lo <= ts < hi && Key(instance, series, ts) in t
    requires forall s: nat :: lo <= s < ts ==> Key(instance, series, s) !in t
    ensures RowsIn(t, instance, series, lo, hi) ==
      [Stamped(ts, t[Key(instance, series, ts)])] + RowsIn(t, instance, series, ts + 1, hi)
  {
    RowsSplit(t, instance, series, lo, ts, hi);
    RowsNone(t, instance, series, lo, ts);
  }

  /** No row is stamped before the epoch. */
  lemma SkipBeforeEpoch(t: Table, instance: string, series: string, lo: int, hi: int)
    ensures RowsIn(t, instance, series, lo, hi) == RowsIn(t, instance, series, Max(lo, 0), Max(hi, Max(lo, 0)))
  {
    hide RowsIn;
    if hi <= Max(lo, 0) {
      RowsNone(t, instance, series, lo, hi);
      RowsNone(t, instance, series, Max(lo, 0), Max(hi, Max(lo, 0)));
    } else if lo < 0 {
      RowsSplit(t, instance, series, lo, 0, hi);
      RowsNone(t, instance, series, lo, 0);
      assert [] + RowsIn(t, instance, series, 0, hi) == RowsIn(t, instance, series, 0, hi);
    }
  }

  // ---- groups ------------------------------------------------------------

  lemma BucketStartBounds(ts: nat)
    ensures BucketStart(ts) <= ts < BucketStart(ts) + BUCKET_MS
    ensures BucketStart(ts) % BUCKET_MS == 0
    ensures BucketStart(BucketStart(ts)) == BucketStart(ts)
    ensures BucketStart(ts) == FloorTo(ts, BUCKET_MS)
  {
  }

  lemma BucketOfMember(start: nat, ts: nat)
    requires start % BUCKET_MS == 0 && start <= ts < start + BUCKET_MS
    ensures BucketStart(ts) == start
  {
  }

  lemma GroupHolds(t: Table, k: Key)
    requires k in t
    ensures GroupRows(t, GroupOf(k)) != []
  {
    BucketStartBounds(k.ts);
    hide RowsIn;
    var g := GroupOf(k);
    RowsExact(t, g.instance, g.series, g.ts, g.ts + BUCKET_MS);
    assert StoredIn(t, g.instance, g.series, g.ts, g.ts + BUCKET_MS, Stamped(k.ts, t[k]));
  }

  lemma GroupsAreNonEmpty(t: Table, cutoff: int)
    ensures forall g :: g in Groups(t, cutoff) ==> GroupRows(t, g) != []
  {
    hide GroupRows, BucketStart;
    forall g | g in Groups(t, cutoff)
      ensures GroupRows(t, g) != []
    {
      var k :| k in t && k.ts < cutoff && g == GroupOf(k);
      GroupHolds(t, k);
    }
  }

  lemma GroupIsAligned(t: Table, cutoff: int, g: Key)
    requires g in Groups(t, cutoff)
    ensures g.ts < cutoff && g.ts % BUCKET_MS == 0
  {
    var k :| k in t && k.ts < cutoff && g == GroupOf(k);
    BucketStartBounds(k.ts);
  }

  lemma GroupHasRow(t: Table, g: Key) returns (k: Key)
    requires g.ts % BUCKET_MS == 0 && GroupRows(t, g) != []
    ensures k in t && GroupOf(k) == g && k.ts < g.ts + BUCKET_MS
  {
    hide RowsIn, BucketStart;
    RowsExact(t, g.instance, g.series, g.ts, g.ts + BUCKET_MS);
    var rows := GroupRows(t, g);
    assert rows[0] in rows;
    k := Key(g.instance, g.series, rows[0].ts);
    BucketOfMember(g.ts, k.ts);
  }

  lemma AlignedBelow(a: int, b: int)
    requires a % BUCKET_MS == 0 && b % BUCKET_MS == 0 && a < b
    ensures a + BUCKET_MS <= b
  {
  }

  /** A group is named by an aligned key below the cutoff with at least one row in its bucket. */
  lemma GroupsMeaning(t: Table, cutoff: int, g: Key)
    requires cutoff % BUCKET_MS == 0
    ensures g in Groups(t, cutoff) <==> g.ts < cutoff && g.ts % BUCKET_MS == 0 && GroupRows(t, g) != []
  {
    hide GroupRows, BucketStart;
    GroupsAreNonEmpty(t, cutoff);
    if g in Groups(t, cutoff) {
      GroupIsAligned(t, cutoff, g);
    }
    if g.ts < cutoff && g.ts % BUCKET_MS == 0 && GroupRows(t, g) != [] {
      var k := GroupHasRow(t, g);
      AlignedBelow(g.ts, cutoff);
    }
  }

  /** What the pass leaves at each key: raw rows from the cutoff up, one aggregate per bucket below. */
  lemma CollapsedMeaning(t: Table, cutoff: int, k: Key)
    requires cutoff % BUCKET_MS == 0
    ensures k.ts >= cutoff ==>
      (k in Collapsed(t, cutoff) <==> k in t) && (k in t ==> Collapsed(t, cutoff)[k] == t[k])
    ensures k.ts < cutoff ==>
      (k in Collapsed(t, cutoff) <==> k.ts % BUCKET_MS == 0 && GroupRows(t, k) != [])
    ensures k.ts < cutoff && k in Collapsed(t, cutoff) ==>
      GroupRows(t, k) != [] && Collapsed(t, cutoff)[k] == Aggregate(KindOf(k.series), GroupRows(t, k))
  {
    hide KindOf, RowsIn, GroupRows, Aggregate;
    GroupsAreNonEmpty(t, cutoff);
    GroupsMeaning(t, cutoff, k);
    BucketStartBounds(k.ts);
    GroupsMeaning(t, cutoff, GroupOf(k));
    if k in t {
      GroupHolds(t, k);
    }
  }

  // ---- collapsing one group at a time ---------------------------------------

  predicate InGroup(g: Key, k: Key) {
    k.instance == g.instance && k.series == g.series && g.ts <= k.ts < g.ts + BUCKET_MS
  }

  lemma InGroupMeaning(g: Key, k: Key)
    requires g.ts % BUCKET_MS == 0
    ensures InGroup(g, k) <==> GroupOf(k) == g
  {
    BucketStartBounds(k.ts);
    if InGroup(g, k) {
      BucketOfMember(g.ts, k.ts);
    }
  }

  /** The rows of a group not yet collapsed are where they were. */
  lemma GroupUntouched(t: Table, gs: set<Key>, g: Key)
    requires AlignedGroups(t, gs) && g !in gs && g.ts % BUCKET_MS == 0
    ensures (set k | k in CollapseGroups(t, gs) && InGroup(g, k)) == (set k | k in t && GroupOf(k) == g)
  {
    hide KindOf, Aggregate, GroupRows, BucketStart, InGroup;
    forall k
      ensures InGroup(g, k) <==> GroupOf(k) == g
    {
      InGroupMeaning(g, k);
    }
    forall h | h in gs
      ensures GroupOf(h) == h
    {
      BucketOfMember(h.ts, h.ts);
    }
    hide GroupOf;
  }

  /** Deleting an uncollapsed group's rows and inserting its aggregate collapses that group too. */
  lemma CollapseOneMore(t: Table, gs: set<Key>, g: Key, more: set<Key>)
    requires AlignedGroups(t, gs) && AlignedGroups(t, more) && more == gs + {g} && g !in gs
    ensures (CollapseGroups(t, gs) - (set k | k in t && GroupOf(k) == g))
      [g := Aggregate(KindOf(g.series), GroupRows(t, g))] == CollapseGroups(t, more)
  {
    hide KindOf, Aggregate, GroupRows, BucketStart;
    forall h | h in more
      ensures GroupOf(h) == h
    {
      BucketOfMember(h.ts, h.ts);
    }
    assert GroupRows(t, g) != [];
    hide GroupOf, AlignedGroups;
    var deleted := set k | k in t && GroupOf(k) == g;
    var row := Aggregate(KindOf(g.series), GroupRows(t, g));
    var x, y := CollapseGroups(t, gs) - deleted, CollapseGroups(t, more);
    forall k | k != g
      ensures k in x <==> k in y
      ensures k in x ==> x[k] == y[k]
    {
    }
    assert g in y && y[g] == row;
    hide CollapseGroups;
  }

  /** Collapsing a settled group changes nothing: the skip is only a saving. */
  lemma SettledStays(t: Table, gs: set<Key>, g: Key, more: set<Key>)
    requires AlignedGroups(t, gs) && AlignedGroups(t, more) && more == gs + {g} && g !in gs && Settled(t, g)
    ensures CollapseGroups(t, more) == CollapseGroups(t, gs)
  {
    hide KindOf, BucketStart;
    assert g in more;
    SettledRow(t, g);
    BucketOfMember(g.ts, g.ts);
    hide Settled, GroupRows, Aggregate, AlignedGroups, GroupOf;
    var x, y := CollapseGroups(t, more), CollapseGroups(t, gs);
    assert x.Keys == y.Keys;
  }

  lemma SettledRow(t: Table, g: Key)
    requires g.ts % BUCKET_MS == 0 && Settled(t, g)
    ensures g in t && GroupRows(t, g) == [Stamped(g.ts, t[g])]
    ensures Aggregate(KindOf(g.series), GroupRows(t, g)) == t[g]
    ensures forall k :: k in t && GroupOf(k) == g ==> k == g
  {
    hide KindOf, RowsIn, Summary, BucketStart;
    var rows := GroupRows(t, g);
    RowsExact(t, g.instance, g.series, g.ts, g.ts + BUCKET_MS);
    assert rows[0] in rows;
    assert rows == [Stamped(g.ts, t[g])];
    assert Points(rows) == [Point(g.ts, t[g].value)];
    SingleSummary(KindOf(g.series), Point(g.ts, t[g].value));
    forall k | k in t && GroupOf(k) == g
      ensures k == g
    {
      InGroupMeaning(g, k);
      assert StoredIn(t, g.instance, g.series, g.ts, g.ts + BUCKET_MS, Stamped(k.ts, t[k]));
      assert Stamped(k.ts, t[k]) in rows;
    }
  }

  // ---- reading ---------------------------------------------------------------

  datatype Query = Query(instance: string, series: seq<string>, fromMs: int, toMs: int, stepS: int)

  datatype SeriesData = SeriesData(points: seq<Point>, honesty: seq<Honesty>)
  {
    function SoleHonesty(): Option<Honesty> {
      if |honesty| == 1 then Some(honesty[0]) else None
    }
  }

  function NoteTag(tags: seq<Honesty>, row: Row): seq<Honesty> {
    match FromTag(row.honesty)
    case Some(tag) => if tag in tags then tags else tags + [tag]
    case None => tags
  }

  /** The distinct readable tags of the rows, by first appearance. */
  function Tags(rows: seq<Stamped>): seq<Honesty> {
    if rows == [] then [] else NoteTag(Tags(rows[..|rows| - 1]), rows[|rows| - 1].row)
  }

  function Resampled(points: seq<Point>, stepS: int, kind: Kind): seq<Point> {
    if stepS > NATIVE_STEP_S then Buckets(points, stepS * 1000, kind) else points
  }

  function SeriesAnswer(t: Table, instance: string, series: string, fromMs: int, toMs: int, stepS: int): SeriesData {
    var rows := RowsIn(t, instance, series, fromMs, toMs + 1);
    SeriesData(Resampled(Points(rows), stepS, KindOf(series)), Tags(rows))
  }

  function Answer(t: Table, q: Query): seq<(string, SeriesData)> {
    seq(|q.series|, i requires 0 <= i < |q.series| =>
      (q.series[i], SeriesAnswer(t, q.instance, q.series[i], q.fromMs, q.toMs, q.stepS)))
  }

  /** A range's tags are exactly the readable tags its rows carry, each listed once. */
  lemma {:induction false} TagsMeaning(rows: seq<Stamped>)
    ensures forall tag :: tag in Tags(rows) <==> exists r :: r in rows && FromTag(r.row.honesty) == Some(tag)
    ensures forall i, j :: 0 <= i < j < |Tags(rows)| ==> Tags(rows)[i] != Tags(rows)[j]
  {
    hide FromTag;
    if rows != [] {
      var front, last := rows[..|rows| - 1], rows[|rows| - 1];
      assert rows == front + [last];
      TagsMeaning(front);
      forall tag
        ensures tag in Tags(rows) <==> exists r :: r in rows && FromTag(r.row.honesty) == Some(tag)
      {
        assert (exists r :: r in rows && FromTag(r.row.honesty) == Some(tag)) <==>
          FromTag(last.row.honesty) == Some(tag) || exists r :: r in front && FromTag(r.row.honesty) == Some(tag);
      }
    }
  }

  /** Some row carries `first` before any row carries `second`. */
  ghost predicate AppearsBefore(rows: seq<Stamped>, first: Honesty, second: Honesty) {
    exists p :: 0 <= p < |rows| && FromTag(rows[p].row.honesty) == Some(first)
      && forall q :: 0 <= q <= p ==> FromTag(rows[q].row.honesty) != Some(second)
  }

  lemma AppearsBeforeMore(rows: seq<Stamped>, first: Honesty, second: Honesty, last: Stamped)
    requires AppearsBefore(rows, first, second)
    ensures AppearsBefore(rows + [last], first, second)
  {
    hide FromTag;
    var more := rows + [last];
    var p :| 0 <= p < |rows| && FromTag(rows[p].row.honesty) == Some(first)
      && forall q :: 0 <= q <= p ==> FromTag(rows[q].row.honesty) != Some(second);
    assert more[p] == rows[p] && forall q :: 0 <= q <= p ==> more[q] == rows[q];
  }

  lemma AppearsFirst(rows: seq<Stamped>, first: Honesty, second: Honesty)
    requires exists r :: r in rows && FromTag(r.row.honesty) == Some(first)
    requires forall r :: r in rows ==> FromTag(r.row.honesty) != Some(second)
    ensures AppearsBefore(rows, first, second)
  {
    hide FromTag;
    var r :| r in rows && FromTag(r.row.honesty) == Some(first);
    var p :| 0 <= p < |rows| && rows[p] == r;
    assert forall q :: 0 <= q <= p ==> rows[q] in rows;
  }

  /** Tags are listed oldest first: by the first row that carries each. */
  lemma {:induction false} TagsOldestFirst(rows: seq<Stamped>)
    ensures forall i, j :: 0 <= i < j < |Tags(rows)| ==> AppearsBefore(rows, Tags(rows)[i], Tags(rows)[j])
  {
    if rows != [] {
      var front, last := rows[..|rows| - 1], rows[|rows| - 1];
      assert rows == front + [last];
      TagsOldestFirst(front);
      TagsMeaning(front);
      hide FromTag, AppearsBefore;
      var tags := Tags(rows);
      forall i, j | 0 <= i < j < |tags|
        ensures AppearsBefore(rows, tags[i], tags[j])
      {
        if j < |Tags(front)| {
          AppearsBeforeMore(front, tags[i], tags[j], last);
        } else {
          assert tags == Tags(front) + [tags[j]] && tags[i] == Tags(front)[i] && tags[i] in Tags(front) && tags[j] !in Tags(front);
          AppearsFirst(front, tags[i], tags[j]);
          AppearsBeforeMore(front, tags[i], tags[j], last);
        }
      }
    }
  }

  /** One chip may speak for a range exactly when every readable tag in it is that one. */
  lemma SoleHonestyMeaning(t: Table, instance: string, series: string, fromMs: int, toMs: int, stepS: int, tag: Honesty)
    ensures SeriesAnswer(t, instance, series, fromMs, toMs, stepS).SoleHonesty() == Some(tag) <==>
      var rows := RowsIn(t, instance, series, fromMs, toMs + 1);
      && (exists r :: r in rows && FromTag(r.row.honesty) == Some(tag))
      && (forall r :: r in rows ==> FromTag(r.row.honesty) in {None, Some(tag)})
  {
    hide KindOf, RowsIn, FromTag, Resampled;
    var rows := RowsIn(t, instance, series, fromMs, toMs + 1);
    TagsMeaning(rows);
    var tags := Tags(rows);
    hide Tags;
    if tag in tags && |tags| > 1 {
      var other := if tags[0] == tag then tags[1] else tags[0];
      assert other in tags && other != tag;
    }
  }

  // ---- the store ---------------------------------------------------------------

  function Insert(t: Table, sample: Sample): Table {
    t[sample.KeyOf() := sample.RowOf()]
  }

  /** Insert-or-replace of a batch, in order: the last sample for a key wins. */
  function Written(t: Table, samples: seq<Sample>): Table {
    if samples == [] then t
    else Insert(Written(t, samples[..|samples| - 1]), samples[|samples| - 1])
  }

  datatype Candidate = Candidate(
    count: nat,
    newestTs: int,
    mean: real,
    last: real,
    source: string,
    honesty: string)

  /** What the pass's grouping query yields for one bucket: its count, its mean, and the columns of its newest row. */
  function CandidateOf(t: Table, g: Key): Candidate
    requires GroupRows(t, g) != []
  {
    var rows := GroupRows(t, g);
    var newest := rows[|rows| - 1];
    Candidate(|rows|, newest.ts, Summary(Gauge, Points(rows)), newest.row.value, newest.row.source, newest.row.honesty)
  }

  class HistoryStore {
    var rows: Table

    constructor ()
      ensures rows == map[]
    {
      rows := map[];
    }

    method WriteBatch(samples: seq<Sample>)
      modifies this
      ensures rows == Written(old(rows), samples)
    {
      for i := 0 to |samples|
        invariant rows == Written(old(rows), samples[..i])
      {
        assert samples[..i + 1][..i] == samples[..i];
        rows := rows[samples[i].KeyOf() := samples[i].RowOf()];
      }
      assert samples[..|samples|] == samples;
    }

    /** The loop over one series' rows: their points, and every tag not yet seen. */
    static method TakeRows(stored: seq<Stamped>) returns (points: seq<Point>, honesty: seq<Honesty>)
      ensures points == Points(stored) && honesty == Tags(stored)
    {
      hide FromTag;
      points, honesty := [], [];
      for i := 0 to |stored|
        invariant points == Points(stored[..i])
        invariant honesty == Tags(stored[..i])
      {
        assert stored[..i + 1][..i] == stored[..i];
        points := points + [Point(stored[i].ts, stored[i].row.value)];
        match FromTag(stored[i].row.honesty) {
          case Some(tag) =>
            if tag !in honesty {
              honesty := honesty + [tag];
            }
          case None =>
        }
      }
      assert stored[..|stored|] == stored;
    }

    method ReadRange(request: Query) returns (result: seq<(string, SeriesData)>)
      ensures result == Answer(rows, request)
    {
      hide KindOf, RowsIn, Tags, Points, Buckets;
      result := [];
      for s := 0 to |request.series|
        invariant result == Answer(rows, request)[..s]
      {
        var name := request.series[s];
        var kind := KindOf(name);
        var stored := RowsIn(rows, request.instance, name, request.fromMs, request.toMs + 1);
        var points, honesty := TakeRows(stored);
        if request.stepS > NATIVE_STEP_S {
          points := BucketPoints(points, request.stepS * 1000, kind);
        }
        result := result + [(name, SeriesData(points, honesty))];
      }
    }

    /** One candidate of the pass: delete the bucket's rows, insert its aggregate at the bucket start. */
    method CollapseBucket(g: Key, candidate: Candidate, ghost live: Table, ghost done: set<Key>)
      returns (removed: nat)
      requires AlignedGroups(live, done) && rows == CollapseGroups(live, done)
      requires g !in done && g.ts % BUCKET_MS == 0
      requires GroupRows(live, g) != [] && candidate == CandidateOf(live, g)
      modifies this
      ensures AlignedGroups(live, done + {g}) && rows == CollapseGroups(live, done + {g})
      ensures removed == |set k | k in live && GroupOf(k) == g|
    {
      hide KindOf, GroupRows, Aggregate, GroupOf;
      var value := match KindOf(g.series)
        case Gauge => candidate.mean
        case Counter => candidate.last;
      CandidateAggregate(live, g);
      GroupUntouched(live, done, g);
      CollapseOneMore(live, done, g, done + {g});
      var deleted := set k | k in rows && InGroup(g, k);
      rows := rows - deleted;
      rows := rows[g := Row(value, candidate.source, candidate.honesty)];
      removed := |deleted|;
    }

    /** The transaction over the pass's candidates, in whatever order the grouping yields them. */
    method CollapseAll(candidates: map<Key, Candidate>) returns (rewritten: nat, collapsed: nat)
      requires AlignedGroups(rows, candidates.Keys)
      requires forall g :: g in candidates ==> GroupRows(rows, g) != [] && candidates[g] == CandidateOf(rows, g)
      modifies this
      ensures AlignedGroups(old(rows), candidates.Keys)
      ensures rows == CollapseGroups(old(rows), candidates.Keys)
      ensures rewritten == |StaleAmong(old(rows), candidates.Keys)|
      ensures collapsed == |RowsOfStale(old(rows), candidates.Keys)|
    {
      hide KindOf, Aggregate, RowsIn, GroupRows, GroupOf, Settled, InGroup, CandidateOf;
      ghost var live := rows;
      ghost var groups := candidates.Keys;
      var todo := candidates.Keys;
      rewritten, collapsed := 0, 0;
      NothingCollapsed(live);
      ghost var done: set<Key> := {};
      hide CollapseGroups, RowsOfStale, StaleAmong, AlignedGroups;
      while todo != {}
        invariant todo <= groups && done == groups - todo
        invariant AlignedGroups(live, done)
        invariant rows == CollapseGroups(live, done)
        invariant rewritten == |StaleAmong(live, done)|
        invariant collapsed == |RowsOfStale(live, done)|
        decreases |todo|
      {
        var g :| g in todo;
        var candidate := candidates[g];
        GroupIn(live, groups, todo, g);
        StaleOneMore(live, done, g);
        CandidateSettled(live, g);
        if candidate.count == 1 && candidate.newestTs == g.ts {
          SettledStays(live, done, g, done + {g});
        } else {
          var removed := CollapseBucket(g, candidate, live, done);
          collapsed := collapsed + removed;
          rewritten := rewritten + 1;
        }
        todo := todo - {g};
        done := done + {g};
      }
      assert done == groups;
    }

    method Maintain(now: Millis, retentionDays: nat) returns (report: Maintenance)
      modifies this
      ensures rows == Maintained(old(rows), now, retentionDays)
      ensures report == Report(old(rows), now, retentionDays)
    {
      hide KindOf, GroupRows, Aggregate, GroupOf, Settled, InGroup, FloorTo;
      var expired := ExpiredKeys(rows, Expiry(now, retentionDays));
      rows := rows - expired;
      var cutoff := Cutoff(now);
      GroupsAreNonEmpty(rows, cutoff);
      GroupsAligned(rows, cutoff);
      StaleWhole(rows, cutoff);
      hide Groups, CandidateOf, CollapseGroups;
      var candidates := map g | g in Groups(rows, cutoff) :: CandidateOf(rows, g);
      assert candidates.Keys == Groups(rows, cutoff);
      var rewritten, collapsed := CollapseAll(candidates);
      report := Maintenance(rewritten, collapsed, |expired|);
    }
  }

  lemma GroupIn(t: Table, groups: set<Key>, todo: set<Key>, g: Key)
    requires AlignedGroups(t, groups) && todo <= groups && g in todo
    ensures g.ts % BUCKET_MS == 0 && GroupRows(t, g) != []
    ensures groups - (todo - {g}) == (groups - todo) + {g}
    ensures AlignedGroups(t, (groups - todo) + {g})
  {
    hide GroupRows;
  }

  lemma NothingCollapsed(t: Table)
    ensures AlignedGroups(t, {}) && CollapseGroups(t, {}) == t
    ensures |StaleAmong(t, {})| == 0 && |RowsOfStale(t, {})| == 0
  {
    assert StaleAmong(t, {}) == {};
    assert RowsOfStale(t, {}) == {};
  }

  lemma StaleWhole(t: Table, cutoff: int)
    ensures StaleAmong(t, Groups(t, cutoff)) == StaleGroups(t, cutoff)
    ensures RowsOfStale(t, Groups(t, cutoff)) == StaleRows(t, cutoff)
  {
    hide Settled, Groups, GroupOf;
    assert StaleAmong(t, Groups(t, cutoff)) == StaleGroups(t, cutoff);
  }

  ghost function StaleAmong(t: Table, gs: set<Key>): set<Key> {
    set g | g in gs && !Settled(t, g)
  }

  ghost function RowsOfStale(t: Table, gs: set<Key>): set<Key> {
    set k | k in t && GroupOf(k) in StaleAmong(t, gs)
  }

  lemma StaleOneMore(t: Table, gs: set<Key>, g: Key)
    requires g !in gs
    ensures Settled(t, g) ==>
      && StaleAmong(t, gs + {g}) == StaleAmong(t, gs)
      && RowsOfStale(t, gs + {g}) == RowsOfStale(t, gs)
    ensures !Settled(t, g) ==>
      && |StaleAmong(t, gs + {g})| == |StaleAmong(t, gs)| + 1
      && |RowsOfStale(t, gs + {g})| == |RowsOfStale(t, gs)| + |set k | k in t && GroupOf(k) == g|
  {
    hide Settled, GroupOf;
    var mine := set k | k in t && GroupOf(k) == g;
    if Settled(t, g) {
      assert StaleAmong(t, gs + {g}) == StaleAmong(t, gs);
    } else {
      assert StaleAmong(t, gs + {g}) == StaleAmong(t, gs) + {g};
      assert RowsOfStale(t, gs + {g}) == RowsOfStale(t, gs) + mine;
      assert RowsOfStale(t, gs) !! mine;
    }
  }

  lemma GroupsAligned(t: Table, cutoff: int)
    ensures AlignedGroups(t, Groups(t, cutoff))
  {
    hide GroupRows, Groups;
    GroupsAreNonEmpty(t, cutoff);
    forall g | g in Groups(t, cutoff)
      ensures g.ts % BUCKET_MS == 0
    {
      GroupIsAligned(t, cutoff, g);
    }
  }

  lemma CandidateSettled(t: Table, g: Key)
    requires GroupRows(t, g) != []
    ensures var c := CandidateOf(t, g); (c.count == 1 && c.newestTs == g.ts <==> Settled(t, g))
  {
    hide RowsIn, Summary;
  }

  lemma CandidateAggregate(t: Table, g: Key)
    requires GroupRows(t, g) != []
    ensures var c := CandidateOf(t, g);
      && Aggregate(Gauge, GroupRows(t, g)) == Row(c.mean, c.source, c.honesty)
      && Aggregate(Counter, GroupRows(t, g)) == Row(c.last, c.source, c.honesty)
  {
    hide RowsIn, Summary;
    CounterSummary(Points(GroupRows(t, g)));
  }
}
