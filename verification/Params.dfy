/** The history query API's parameter parsing: strict keys, checked arithmetic and the point cap. */
module Params {
  import opened Prelude
  import opened Text
  import opened Bucketing
  import opened Catalog
  import opened Store

  const DEFAULT_WINDOW_MS := 15 * 60 * 1000
  const MAX_POINTS_PER_SERIES := 20_000

  datatype Error =
    | UnknownParameter(key: string)
    | NotAnInteger(key: string)
    | UnknownSeries(names: seq<string>)
    | NoSeries
    | ToOutOfRange
    | ToNotAfterFrom
    | StepTooSmall
    | RangeTooLarge
    | StepTooLarge
    | TooManyPoints(points: int)

  datatype Params = Params(series: seq<string>, fromMs: int, toMs: int, stepS: int)

  datatype Given = Given(series: Option<string>, fromMs: Option<int>, toMs: Option<int>, stepS: int)

  predicate FitsI64(x: int) {
    I64_MIN <= x <= I64_MAX
  }

  function TakePair(given: Given, pair: string): Result<Given, Error> {
    var (key, value) := SplitOnce(pair, '=');
    if key == "series" then Ok(given.(series := Some(value)))
    else if key !in {"from_ms", "to_ms", "step_s"} then Err(UnknownParameter(key))
    else
      match ParseI64(value)
      case None => Err(NotAnInteger(key))
      case Some(n) =>
        Ok(if key == "from_ms" then given.(fromMs := Some(n))
           else if key == "to_ms" then given.(toMs := Some(n))
           else given.(stepS := n))
  }

  function TakePairs(given: Given, pairs: seq<string>): Result<Given, Error>
    decreases |pairs|
  {
    if pairs == [] then Ok(given)
    else
      match TakePair(given, pairs[0])
      case Ok(next) => TakePairs(next, pairs[1..])
      case Err(error) => Err(error)
  }

  function Known(names: seq<string>): seq<string> {
    if names == [] then []
    else (if Lookup(names[0]).Some? then [names[0]] else []) + Known(names[1..])
  }

  function Unknown(names: seq<string>): seq<string> {
    if names == [] then []
    else (if Lookup(names[0]).None? then [names[0]] else []) + Unknown(names[1..])
  }

  function Names(entries: seq<Series>): seq<string> {
    seq(|entries|, i requires 0 <= i < |entries| => entries[i].name)
  }

  function ResolveSeries(given: Option<string>): Result<seq<string>, Error> {
    match given
    case None => Ok(Names(All()))
    case Some(text) =>
      var names := NonEmpty(Split(text, ','));
      if Unknown(names) != [] then Err(UnknownSeries(Unknown(names)))
      else if Known(names) == [] then Err(NoSeries)
      else Ok(Known(names))
  }

  /** The checked half: every difference and product is refused before it could wrap. */
  function CheckRange(series: seq<string>, given: Given, now: Millis): Result<Params, Error> {
    var toMs := match given.toMs case Some(value) => value case None => now;
    if given.fromMs.None? && !FitsI64(toMs - DEFAULT_WINDOW_MS) then Err(ToOutOfRange)
    else
      var fromMs := match given.fromMs case Some(value) => value case None => toMs - DEFAULT_WINDOW_MS;
      if toMs <= fromMs then Err(ToNotAfterFrom)
      else if given.stepS < 1 then Err(StepTooSmall)
      else if !FitsI64(toMs - fromMs) then Err(RangeTooLarge)
      else if !FitsI64(given.stepS * 1000) then Err(StepTooLarge)
      else
        var points := (toMs - fromMs) / (given.stepS * 1000);
        if points > MAX_POINTS_PER_SERIES then Err(TooManyPoints(points))
        else Ok(Params(series, fromMs, toMs, given.stepS))
  }

  const NOTHING_GIVEN := Given(None, None, None, NATIVE_STEP_S)

  function ParseParams(query: string, now: Millis): Result<Params, Error> {
    match TakePairs(NOTHING_GIVEN, NonEmpty(Split(query, '&')))
    case Err(error) => Err(error)
    case Ok(given) =>
      match ResolveSeries(given.series)
      case Err(error) => Err(error)
      case Ok(series) => CheckRange(series, given, now)
  }

  /** The first loop of `Params::parse`: the pairs, in order, stopping at the first refused one. */
  method ReadPairs(pairs: seq<string>) returns (result: Result<Given, Error>)
    ensures result == TakePairs(NOTHING_GIVEN, pairs)
  {
    hide SplitOnce, ParseI64;
    var given := NOTHING_GIVEN;
    var i := 0;
    while i < |pairs|
      invariant 0 <= i <= |pairs|
      invariant TakePairs(given, pairs[i..]) == TakePairs(NOTHING_GIVEN, pairs)
    {
      assert pairs[i..][1..] == pairs[i + 1..];
      var (key, value) := SplitOnce(pairs[i], '=');
      match key {
        case "series" => given := given.(series := Some(value));
        case "from_ms" =>
          match ParseI64(value) {
            case Some(n) => given := given.(fromMs := Some(n));
            case None => return Err(NotAnInteger(key));
          }
        case "to_ms" =>
          match ParseI64(value) {
            case Some(n) => given := given.(toMs := Some(n));
            case None => return Err(NotAnInteger(key));
          }
        case "step_s" =>
          match ParseI64(value) {
            case Some(n) => given := given.(stepS := n);
            case None => return Err(NotAnInteger(key));
          }
        case _ => return Err(UnknownParameter(key));
      }
      i := i + 1;
    }
    result := Ok(given);
  }

  /** The second loop: names the catalog knows, and names to be quoted back. */
  method ResolveNames(names: seq<string>) returns (resolved: seq<string>, unknown: seq<string>)
    ensures resolved == Known(names) && unknown == Unknown(names)
  {
    hide Lookup;
    resolved, unknown := [], [];
    for i := 0 to |names|
      invariant resolved + Known(names[i..]) == Known(names)
      invariant unknown + Unknown(names[i..]) == Unknown(names)
    {
      assert names[i..][1..] == names[i + 1..];
      match Lookup(names[i]) {
        case Some(_) => resolved := resolved + [names[i]];
        case None => unknown := unknown + [names[i]];
      }
    }
  }

  /** `Params::parse`; an absent query string is the empty one. */
  method Parse(query: string, now: Millis) returns (result: Result<Params, Error>)
    ensures result == ParseParams(query, now)
  {
    hide SplitOnce, ParseI64, Lookup, Split, CheckRange, All, TakePairs, Known, Unknown;
    var read := ReadPairs(NonEmpty(Split(query, '&')));
    if read.Err? {
      return Err(read.error);
    }
    var series := Names(All());
    if read.value.series.Some? {
      var unknown;
      series, unknown := ResolveNames(NonEmpty(Split(read.value.series.value, ',')));
      if unknown != [] {
        return Err(UnknownSeries(unknown));
      }
      if series == [] {
        return Err(NoSeries);
      }
    }
    result := CheckRange(series, read.value, now);
  }

  // ---- what acceptance promises ---------------------------------------------------

  lemma {:induction false} GivenFits(given: Given, pairs: seq<string>)
    requires FitsI64(given.stepS)
    requires given.fromMs.Some? ==> FitsI64(given.fromMs.value)
    requires given.toMs.Some? ==> FitsI64(given.toMs.value)
    ensures var r := TakePairs(given, pairs);
      r.Ok? ==>
        && FitsI64(r.value.stepS)
        && (r.value.fromMs.Some? ==> FitsI64(r.value.fromMs.value))
        && (r.value.toMs.Some? ==> FitsI64(r.value.toMs.value))
    decreases |pairs|
  {
    hide SplitOnce;
    if pairs != [] {
      match TakePair(given, pairs[0]) {
        case Ok(next) => GivenFits(next, pairs[1..]);
        case Err(_) =>
      }
    }
  }

  /**
   Whatever the query string, accepted numbers can be recomputed unchecked: the span and the step in
   milliseconds fit an `i64`, and the range is non-empty.
   */
  lemma AcceptedIsSafe(query: string, now: Millis)
    ensures var r := ParseParams(query, now);
      r.Ok? ==>
        var p := r.value;
        && FitsI64(p.fromMs) && FitsI64(p.toMs) && p.fromMs < p.toMs
        && FitsI64(p.toMs - p.fromMs)
        && p.stepS >= 1 && FitsI64(p.stepS * 1000)
        && p.toMs - p.fromMs < (MAX_POINTS_PER_SERIES + 1) * (p.stepS * 1000)
  {
    hide SplitOnce, ParseI64, Lookup, Split, ResolveSeries, TakePairs;
    GivenFits(NOTHING_GIVEN, NonEmpty(Split(query, '&')));
    var r := ParseParams(query, now);
    if r.Ok? {
      Decompose(r.value.toMs - r.value.fromMs, r.value.stepS * 1000);
      MulMonotone((r.value.toMs - r.value.fromMs) / (r.value.stepS * 1000), MAX_POINTS_PER_SERIES, r.value.stepS * 1000);
    }
  }

  /** Strictly increasing multiples of the width in a range are at least a width apart. */
  lemma {:induction false} MultiplesSpread(points: seq<Point>, width: int, low: int, high: int)
    requires width > 0 && Ordered(points) && points != []
    requires forall p :: p in points ==> p.ts % width == 0 && low <= p.ts <= high
    ensures (|points| - 1) * width <= high - low
  {
    if |points| > 1 {
      var rest := points[1..];
      assert points[0] in points && points[1] in points;
      StepApart(points[0].ts, points[1].ts, width);
      forall p | p in rest ensures p.ts % width == 0 && points[1].ts <= p.ts <= high {
        var i :| 0 <= i < |rest| && p == rest[i];
        assert points[i + 1] == p;
      }
      MultiplesSpread(rest, width, points[1].ts, high);
      assert (|points| - 1) * width == (|rest| - 1) * width + width;
    }
  }

  lemma StepApart(a: int, b: int, width: int)
    requires width > 0 && a % width == 0 && b % width == 0 && a < b
    ensures a + width <= b
  {
    Decompose(a, width);
    Decompose(b, width);
    var p, q := a / width, b / width;
    assert (p + 1) * width == p * width + width;
    if q <= p {
      MulMonotone(q, p, width);
    } else {
      MulMonotone(p + 1, q, width);
    }
  }

  lemma ScaleCancels(n: int, m: int, width: int)
    requires width > 0 && n * width < m * width
    ensures n < m
  {
    if m <= n {
      MulMonotone(m, n, width);
    }
  }

  /** A bucketed answer over an accepted range holds at most two points more than the cap, and never more points than rows. */
  lemma BucketedWithinCap(t: Table, instance: string, series: string, fromMs: int, toMs: int, stepS: int)
    requires stepS >= 2 && fromMs < toMs
    requires toMs - fromMs < (MAX_POINTS_PER_SERIES + 1) * (stepS * 1000)
    ensures var answer := SeriesAnswer(t, instance, series, fromMs, toMs, stepS);
      && |answer.points| <= MAX_POINTS_PER_SERIES + 2
      && |answer.points| <= |RowsIn(t, instance, series, fromMs, toMs + 1)|
  {
    hide KindOf, RowsIn, FloorTo, Buckets, Summary, Ordered;
    var width, kind := stepS * 1000, KindOf(series);
    var points := Points(RowsIn(t, instance, series, fromMs, toMs + 1));
    var out := Buckets(points, width, kind);
    PointsOrdered(t, instance, series, fromMs, toMs + 1);
    BucketsMeaning(points, width, kind);
    ScanBounds(t, instance, series, fromMs, toMs + 1);
    if out != [] {
      forall b | b in out
        ensures b.ts % width == 0 && FloorTo(fromMs, width) <= b.ts <= toMs
      {
        InBucketMembers(points, b.ts, width);
        var p := InBucket(points, b.ts, width)[0];
        assert p in InBucket(points, b.ts, width);
        FloorMonotone(fromMs, p.ts, width);
        FloorBounds(p.ts, width);
      }
      MultiplesSpread(out, width, FloorTo(fromMs, width), toMs);
      FloorBounds(fromMs, width);
      var cap := MAX_POINTS_PER_SERIES + 1;
      assert (cap + 1) * width == cap * width + width;
      ScaleCancels(|out| - 1, cap + 1, width);
    }
  }

  /** A row at every millisecond below `n`. */
  function Dense(instance: string, series: string, n: nat): Table {
    map ts: nat | ts < n :: Key(instance, series, ts) := Row(0.0, "metrics", "measured")
  }

  lemma {:induction false} DenseScan(instance: string, series: string, n: nat, lo: nat)
    requires lo <= n
    ensures |RowsIn(Dense(instance, series, n), instance, series, lo, n)| == n - lo
    decreases n - lo
  {
    if lo < n {
      DenseScan(instance, series, n, lo + 1);
    }
  }

  ghost predicate CappedForEveryTable(instance: string, series: string, fromMs: int, toMs: int, stepS: int) {
    forall t: Table :: |SeriesAnswer(t, instance, series, fromMs, toMs, stepS).points| <= MAX_POINTS_PER_SERIES + 2
  }

  /**
   The cap bounds every answer exactly when the step is not native or the span is short enough that
   even a row at every millisecond fits: at `step_s = 1` stored points are returned unbucketed.
   (No row is stamped before the epoch, so that part of a span does not count.)
   */
  lemma CapHoldsExactly(instance: string, series: string, fromMs: int, toMs: int, stepS: int)
    requires fromMs < toMs && stepS >= 1
    requires toMs - fromMs < (MAX_POINTS_PER_SERIES + 1) * (stepS * 1000)
    ensures CappedForEveryTable(instance, series, fromMs, toMs, stepS) <==>
      stepS >= 2 || toMs - Max(fromMs, 0) <= MAX_POINTS_PER_SERIES + 1
  {
    hide KindOf, RowsIn, Buckets, Tags, Dense;
    if stepS >= 2 {
      forall t: Table
        ensures |SeriesAnswer(t, instance, series, fromMs, toMs, stepS).points| <= MAX_POINTS_PER_SERIES + 2
      {
        BucketedWithinCap(t, instance, series, fromMs, toMs, stepS);
      }
    } else if toMs - Max(fromMs, 0) <= MAX_POINTS_PER_SERIES + 1 {
      forall t: Table
        ensures |SeriesAnswer(t, instance, series, fromMs, toMs, stepS).points| <= MAX_POINTS_PER_SERIES + 2
      {
        SkipBeforeEpoch(t, instance, series, fromMs, toMs + 1);
        RowCount(t, instance, series, Max(fromMs, 0), Max(toMs + 1, Max(fromMs, 0)));
      }
    } else {
      var t := Dense(instance, series, toMs + 1);
      SkipBeforeEpoch(t, instance, series, fromMs, toMs + 1);
      DenseScan(instance, series, toMs + 1, Max(fromMs, 0));
      assert |SeriesAnswer(t, instance, series, fromMs, toMs, stepS).points| == toMs + 1 - Max(fromMs, 0);
    }
  }

  /** Whatever query is accepted, a bucketed series of the answer stays within two points of the cap. */
  lemma AcceptedAnswersWithinCap(query: string, now: Millis, t: Table, instance: string, series: string)
    ensures var r := ParseParams(query, now);
      r.Ok? && r.value.stepS >= 2 ==>
        |SeriesAnswer(t, instance, series, r.value.fromMs, r.value.toMs, r.value.stepS).points| <= MAX_POINTS_PER_SERIES + 2
  {
    hide ParseParams, SeriesAnswer;
    AcceptedIsSafe(query, now);
    var r := ParseParams(query, now);
    if r.Ok? && r.value.stepS >= 2 {
      BucketedWithinCap(t, instance, series, r.value.fromMs, r.value.toMs, r.value.stepS);
    }
  }

  lemma {:induction false} RowCount(t: Table, instance: string, series: string, lo: int, hi: int)
    requires lo <= hi
    ensures |RowsIn(t, instance, series, lo, hi)| <= hi - lo
    decreases hi - lo
  {
    if lo < hi {
      RowCount(t, instance, series, lo + 1, hi);
    }
  }
}
