/**
 Epoch-anchored bucketing of ts-ordered points: `bucket` of the history store.
 `Buckets` is the specification; `BucketPoints` is the source's nested index loop.
 */
module Bucketing {
  import opened Prelude

  datatype Kind = Gauge | Counter

  datatype Point = Point(ts: int, value: real)

  /** `div_euclid(width) * width`: the start of the epoch-anchored bucket holding `ts`. */
  function FloorTo(ts: int, width: int): int
    requires width > 0
  {
    ts / width * width
  }

  ghost predicate Ordered(points: seq<Point>) {
    forall i, j :: 0 <= i < j < |points| ==> points[i].ts < points[j].ts
  }

  function Sum(points: seq<Point>): real {
    if points == [] then 0.0 else points[0].value + Sum(points[1..])
  }

  /** What one bucket is reduced to: the mean of a gauge, the latest value of a counter. */
  function Summary(kind: Kind, points: seq<Point>): real
    requires points != []
  {
    match kind
    case Gauge => Sum(points) / |points| as real
    case Counter => points[|points| - 1].value
  }

  /** How many leading points share the bucket `start`. */
  function RunLength(points: seq<Point>, start: int, width: int): (n: nat)
    requires width > 0
    ensures n <= |points|
  {
    if points == [] || FloorTo(points[0].ts, width) != start then 0
    else 1 + RunLength(points[1..], start, width)
  }

  function FirstRun(points: seq<Point>, width: int): (n: nat)
    requires width > 0 && points != []
    ensures 0 < n <= |points|
  {
    RunLength(points, FloorTo(points[0].ts, width), width)
  }

  function Buckets(points: seq<Point>, width: int, kind: Kind): seq<Point>
    requires width > 0
    decreases |points|
  {
    if points == [] then []
    else
      var n := FirstRun(points, width);
      [Point(FloorTo(points[0].ts, width), Summary(kind, points[..n]))] + Buckets(points[n..], width, kind)
  }

  method BucketPoints(points: seq<Point>, width: int, kind: Kind) returns (out: seq<Point>)
    requires width > 0
    ensures out == Buckets(points, width, kind)
  {
    hide FloorTo, Summary, Buckets;
    out := [];
    NoBuckets(width, kind);
    var index := 0;
    while index < |points|
      invariant 0 <= index <= |points|
      invariant out + Buckets(points[index..], width, kind) == Buckets(points, width, kind)
    {
      var start := FloorTo(points[index].ts, width);
      var end := index;
      while end < |points| && FloorTo(points[end].ts, width) == start
        invariant index <= end <= |points|
        invariant RunLength(points[index..], start, width) == end - index + RunLength(points[end..], start, width)
      {
        assert points[end..][1..] == points[end + 1..];
        end := end + 1;
      }
      var slice := points[index..end];
      assert points[index..] == slice + points[end..];
      BucketsStep(points[index..], slice, points[end..], width, kind);
      var point := Point(start, Summary(kind, slice));
      Assoc(out, [point], Buckets(points[end..], width, kind));
      out := out + [point];
      index := end;
    }
    assert points[index..] == [];
    assert out + [] == out;
  }

  lemma NoBuckets(width: int, kind: Kind)
    requires width > 0
    ensures Buckets([], width, kind) == []
  {
  }

  // ---- arithmetic of bucket starts ------------------------------------

  lemma MulMonotone(p: int, q: int, width: int)
    requires width > 0 && p <= q
    ensures p * width <= q * width
  {
  }

  lemma Decompose(ts: int, width: int)
    requires width > 0
    ensures ts == ts / width * width + ts % width && 0 <= ts % width < width
  {
  }

  /** The only multiple of the width in `(ts - width, ts]` is the quotient's. */
  lemma QuotientUnique(ts: int, q: int, width: int)
    requires width > 0 && q * width <= ts < q * width + width
    ensures ts / width == q
  {
    var p := ts / width;
    Decompose(ts, width);
    assert (p + 1) * width == p * width + width && (q + 1) * width == q * width + width;
    if p < q {
      MulMonotone(p + 1, q, width);
    } else if q < p {
      MulMonotone(q + 1, p, width);
    }
  }

  lemma FloorBounds(ts: int, width: int)
    requires width > 0
    ensures FloorTo(ts, width) <= ts < FloorTo(ts, width) + width
    ensures FloorTo(ts, width) % width == 0
  {
    Decompose(ts, width);
    var m := FloorTo(ts, width);
    QuotientUnique(m, ts / width, width);
    Decompose(m, width);
  }

  /** A multiple of the width that brackets `ts` is its bucket start. */
  lemma FloorUnique(ts: int, start: int, width: int)
    requires width > 0 && start % width == 0 && start <= ts < start + width
    ensures FloorTo(ts, width) == start
  {
    Decompose(start, width);
    QuotientUnique(ts, start / width, width);
  }

  lemma FloorMonotone(a: int, b: int, width: int)
    requires width > 0 && a <= b
    ensures FloorTo(a, width) <= FloorTo(b, width)
  {
    FloorBounds(a, width);
    FloorBounds(b, width);
    var p, q := a / width, b / width;
    assert (q + 1) * width == q * width + width;
    if q < p {
      MulMonotone(q + 1, p, width);
    } else {
      MulMonotone(p, q, width);
    }
  }

  /** Flooring to a divisor first does not change the coarser floor. */
  lemma FloorOfFloor(ts: int, fine: int, coarse: int)
    requires fine > 0 && coarse > 0 && coarse % fine == 0
    ensures FloorTo(FloorTo(ts, fine), coarse) == FloorTo(ts, coarse)
  {
    var start, mid := FloorTo(ts, coarse), FloorTo(ts, fine);
    FloorBounds(ts, fine);
    FloorBounds(ts, coarse);
    MultipleOfMultiple(ts / coarse, fine, coarse);
    FloorUnique(start, start, fine);
    FloorMonotone(start, ts, fine);
    assert start <= mid;
    FloorUnique(mid, start, coarse);
  }

  lemma MultipleOfMultiple(q: int, fine: int, coarse: int)
    requires fine > 0 && coarse > 0 && coarse % fine == 0
    ensures q * coarse % fine == 0
  {
    var m := coarse / fine;
    Decompose(coarse, fine);
    var n := q * m;
    assert q * coarse == n * fine by {
      assert q * (m * fine) == (q * m) * fine;
    }
    QuotientUnique(n * fine, n, fine);
    Decompose(n * fine, fine);
  }

  // ---- what a bucketed answer holds -----------------------------------

  /** The first run is exactly the points of the first bucket, when the points are ordered. */
  lemma {:induction false} RunCovers(points: seq<Point>, start: int, width: int)
    requires width > 0 && Ordered(points)
    requires forall p :: p in points ==> FloorTo(p.ts, width) >= start
    ensures forall i :: 0 <= i < |points| ==>
      (i < RunLength(points, start, width) <==> FloorTo(points[i].ts, width) == start)
  {
    hide FloorTo, Summary;
    if points != [] {
      var tail := points[1..];
      if FloorTo(points[0].ts, width) == start {
        RunCovers(tail, start, width);
        forall i | 0 <= i < |points|
          ensures i < RunLength(points, start, width) <==> FloorTo(points[i].ts, width) == start
        {
          if i > 0 {
            assert points[i] == tail[i - 1];
          }
        }
      } else {
        forall i | 0 <= i < |points|
          ensures FloorTo(points[i].ts, width) > start
        {
          FloorMonotone(points[0].ts, points[i].ts, width);
          assert points[0] in points;
        }
      }
    }
  }

  lemma FirstRunCovers(points: seq<Point>, width: int)
    requires width > 0 && Ordered(points) && points != []
    ensures forall i :: 0 <= i < |points| ==>
      (i < FirstRun(points, width) <==> FloorTo(points[i].ts, width) == FloorTo(points[0].ts, width))
    ensures forall i :: 0 <= i < |points| ==> FloorTo(points[i].ts, width) >= FloorTo(points[0].ts, width)
  {
    hide FloorTo, Summary;
    forall i | 0 <= i < |points|
      ensures FloorTo(points[i].ts, width) >= FloorTo(points[0].ts, width)
    {
      FloorMonotone(points[0].ts, points[i].ts, width);
    }
    RunCovers(points, FloorTo(points[0].ts, width), width);
  }

  /** The points of one bucket, in order. */
  function InBucket(points: seq<Point>, start: int, width: int): seq<Point>
    requires width > 0
  {
    if points == [] then []
    else (if FloorTo(points[0].ts, width) == start then [points[0]] else []) + InBucket(points[1..], start, width)
  }

  lemma InBucketStep(points: seq<Point>, tail: seq<Point>, start: int, width: int)
    requires width > 0 && points != [] && tail == points[1..]
    ensures InBucket(points, start, width) ==
      (if FloorTo(points[0].ts, width) == start then [points[0]] else []) + InBucket(tail, start, width)
  {
  }

  lemma {:induction false} InBucketAppend(a: seq<Point>, b: seq<Point>, start: int, width: int)
    requires width > 0
    ensures InBucket(a + b, start, width) == InBucket(a, start, width) + InBucket(b, start, width)
  {
    hide FloorTo;
    if a == [] {
      assert a + b == b;
    } else {
      hide InBucket;
      assert (a + b)[1..] == a[1..] + b;
      InBucketStep(a, a[1..], start, width);
      InBucketStep(a + b, a[1..] + b, start, width);
      InBucketAppend(a[1..], b, start, width);
      Assoc(if FloorTo(a[0].ts, width) == start then [a[0]] else [], InBucket(a[1..], start, width), InBucket(b, start, width));
    }
  }

  lemma {:induction false} InBucketAll(points: seq<Point>, start: int, width: int)
    requires width > 0
    ensures (forall p :: p in points ==> FloorTo(p.ts, width) == start) ==> InBucket(points, start, width) == points
    ensures (forall p :: p in points ==> FloorTo(p.ts, width) != start) ==> InBucket(points, start, width) == []
  {
    hide FloorTo, Summary;
    if points != [] {
      assert points == [points[0]] + points[1..];
      InBucketAll(points[1..], start, width);
    }
  }

  /** The first run against the rest: nothing of its bucket is left behind it. */
  lemma FirstRunSplit(points: seq<Point>, head: seq<Point>, tail: seq<Point>, width: int)
    requires width > 0 && Ordered(points) && points != []
    requires head == points[..FirstRun(points, width)] && tail == points[FirstRun(points, width)..]
    ensures points == head + tail && head != [] && Ordered(tail)
    ensures forall p :: p in head ==> FloorTo(p.ts, width) == FloorTo(head[0].ts, width)
    ensures forall p :: p in tail ==> FloorTo(p.ts, width) > FloorTo(head[0].ts, width)
    ensures InBucket(points, FloorTo(head[0].ts, width), width) == head
    ensures forall start :: start != FloorTo(head[0].ts, width) ==>
      InBucket(points, start, width) == InBucket(tail, start, width)
  {
    hide FloorTo, InBucket, RunLength;
    FirstRunCovers(points, width);
    var first := FloorTo(head[0].ts, width);
    forall p | p in head ensures FloorTo(p.ts, width) == first {
      var i :| 0 <= i < |head| && head[i] == p;
      assert points[i] == p;
    }
    forall p | p in tail ensures FloorTo(p.ts, width) > first {
      var i :| 0 <= i < |tail| && tail[i] == p;
      assert points[|head| + i] == p;
    }
    InBucketAppend(head, tail, first, width);
    InBucketAll(head, first, width);
    InBucketAll(tail, first, width);
    assert points == head + tail;
    forall start | start != first
      ensures InBucket(points, start, width) == InBucket(tail, start, width)
    {
      InBucketAppend(head, tail, start, width);
      InBucketAll(head, start, width);
      assert [] + InBucket(tail, start, width) == InBucket(tail, start, width);
    }
  }

  /** Every output summarises exactly the inputs of its bucket, and stands at the bucket's start. */
  lemma {:induction false} BucketsValues(points: seq<Point>, width: int, kind: Kind)
    requires width > 0 && Ordered(points)
    ensures forall b :: b in Buckets(points, width, kind) ==>
      && b.ts % width == 0
      && InBucket(points, b.ts, width) != []
      && b.value == Summary(kind, InBucket(points, b.ts, width))
    ensures |Buckets(points, width, kind)| <= |points|
    decreases |points|
  {
    hide FloorTo, Summary;
    if points != [] {
      var n := FirstRun(points, width);
      var head, tail := points[..n], points[n..];
      FirstRunSplit(points, head, tail, width);
      FloorBounds(points[0].ts, width);
      BucketsValues(tail, width, kind);
      BucketsStep(points, head, tail, width, kind);
      hide Buckets, InBucket, RunLength, FirstRun;
      var start := FloorTo(head[0].ts, width);
      forall b | b in Buckets(tail, width, kind)
        ensures b.ts != start
      {
        InBucketMembers(tail, b.ts, width);
        assert InBucket(tail, b.ts, width)[0] in InBucket(tail, b.ts, width);
      }
    }
  }

  /** Every input's bucket has an output. */
  lemma {:induction false} BucketsCover(points: seq<Point>, width: int, kind: Kind)
    requires width > 0 && Ordered(points)
    ensures forall p :: p in points ==>
      exists b :: b in Buckets(points, width, kind) && b.ts == FloorTo(p.ts, width)
    decreases |points|
  {
    hide FloorTo, Summary;
    if points != [] {
      var n := FirstRun(points, width);
      var head, tail := points[..n], points[n..];
      FirstRunSplit(points, head, tail, width);
      BucketsCover(tail, width, kind);
      BucketsStep(points, head, tail, width, kind);
      hide Buckets, RunLength, FirstRun;
      var out := Buckets(points, width, kind);
      forall p | p in points
        ensures exists b :: b in out && b.ts == FloorTo(p.ts, width)
      {
        if p in head {
          assert out[0] in out;
        } else {
          var b :| b in Buckets(tail, width, kind) && b.ts == FloorTo(p.ts, width);
          assert b in out;
        }
      }
    }
  }

  /** The bucket starts of the answer strictly increase, and none precedes the first input's bucket. */
  lemma {:induction false} BucketsOrdered(points: seq<Point>, width: int, kind: Kind)
    requires width > 0 && Ordered(points)
    ensures Ordered(Buckets(points, width, kind))
    ensures forall b :: b in Buckets(points, width, kind) ==> b.ts >= FloorTo(points[0].ts, width)
    decreases |points|
  {
    hide FloorTo, Summary;
    if points != [] {
      var n := FirstRun(points, width);
      var head, tail := points[..n], points[n..];
      FirstRunSplit(points, head, tail, width);
      BucketsOrdered(tail, width, kind);
      BucketsStep(points, head, tail, width, kind);
      if tail != [] {
        assert tail[0] in tail;
      }
      hide Buckets, RunLength, FirstRun, Ordered;
      OrderedCons(Point(FloorTo(head[0].ts, width), Summary(kind, head)), Buckets(tail, width, kind));
    }
  }

  lemma OrderedCons(first: Point, rest: seq<Point>)
    requires Ordered(rest)
    requires forall p :: p in rest ==> first.ts < p.ts
    ensures Ordered([first] + rest)
  {
  }

  /**
   The bucketed answer of ordered points: bucket starts strictly increase, each is a multiple of
   the width, and a start appears exactly when some input fell in that bucket; its value is the
   summary of exactly the inputs of that bucket.
   */
  lemma BucketsMeaning(points: seq<Point>, width: int, kind: Kind)
    requires width > 0 && Ordered(points)
    ensures var out := Buckets(points, width, kind);
      && Ordered(out)
      && |out| <= |points|
      && (forall b :: b in out ==>
            b.ts % width == 0 && InBucket(points, b.ts, width) != []
            && b.value == Summary(kind, InBucket(points, b.ts, width)))
      && (forall p :: p in points ==> exists b :: b in out && b.ts == FloorTo(p.ts, width))
  {
    hide *;
    BucketsValues(points, width, kind);
    BucketsCover(points, width, kind);
    BucketsOrdered(points, width, kind);
  }

  lemma {:induction false} InBucketMembers(points: seq<Point>, start: int, width: int)
    requires width > 0
    ensures forall p :: p in InBucket(points, start, width) <==> p in points && FloorTo(p.ts, width) == start
  {
    hide FloorTo, Summary;
    if points != [] {
      assert points == [points[0]] + points[1..];
      InBucketMembers(points[1..], start, width);
    }
  }

  lemma {:induction false} SumBounds(points: seq<Point>, low: real, high: real)
    requires forall p :: p in points ==> low <= p.value <= high
    ensures low * |points| as real <= Sum(points) <= high * |points| as real
  {
    hide FloorTo, Summary;
    if points != [] {
      assert points == [points[0]] + points[1..];
      SumBounds(points[1..], low, high);
      var n := |points[1..]| as real;
      assert |points| as real == 1.0 + n;
      assert low * (1.0 + n) == low + low * n && high * (1.0 + n) == high + high * n;
    }
  }

  lemma DivideBounds(total: real, n: real, low: real, high: real)
    requires n > 0.0 && low * n <= total <= high * n
    ensures low <= total / n <= high
  {
    var mean := total / n;
    assert mean * n == total;
    if mean < low {
      ScaleLess(mean, low, n);
    }
    if mean > high {
      ScaleLess(high, mean, n);
    }
  }

  lemma ScaleLess(a: real, b: real, n: real)
    requires n > 0.0 && a < b
    ensures a * n < b * n
  {
  }

  /** A gauge bucket's value lies between any bounds on its inputs: averaging invents no extreme. */
  lemma MeanBetween(points: seq<Point>, low: real, high: real)
    requires points != []
    requires forall p :: p in points ==> low <= p.value <= high
    ensures low <= Summary(Gauge, points) <= high
  {
    SumBounds(points, low, high);
    var n := |points| as real;
    DivideBounds(Sum(points), n, low, high);
  }

  lemma {:induction false} SumAppend(a: seq<Point>, b: seq<Point>)
    ensures Sum(a + b) == Sum(a) + Sum(b)
  {
    hide FloorTo, Summary;
    if a == [] {
      assert a + b == b;
    } else {
      assert (a + b)[1..] == a[1..] + b;
      SumAppend(a[1..], b);
    }
  }

  function Scale(value: real, count: nat): real {
    value * count as real
  }

  /** Sum over the bucketed answer of value times the number of inputs in that bucket. */
  function WeightedSum(out: seq<Point>, points: seq<Point>, width: int): real
    requires width > 0
  {
    if out == [] then 0.0
    else Scale(out[0].value, |InBucket(points, out[0].ts, width)|) + WeightedSum(out[1..], points, width)
  }

  lemma {:induction false} WeightedSumSame(out: seq<Point>, points: seq<Point>, others: seq<Point>, width: int)
    requires width > 0
    requires forall b :: b in out ==> InBucket(points, b.ts, width) == InBucket(others, b.ts, width)
    ensures WeightedSum(out, points, width) == WeightedSum(out, others, width)
  {
    hide FloorTo, Summary;
    if out != [] {
      assert out == [out[0]] + out[1..];
      WeightedSumSame(out[1..], points, others, width);
    }
  }

  /** Gauge bucketing conserves mass: the count-weighted sum of the answer is the sum of the inputs. */
  lemma {:induction false} GaugeMassConserved(points: seq<Point>, width: int)
    requires width > 0 && Ordered(points)
    ensures WeightedSum(Buckets(points, width, Gauge), points, width) == Sum(points)
    decreases |points|
  {
    hide FloorTo, Summary;
    if points != [] {
      var n := FirstRun(points, width);
      var head, tail := points[..n], points[n..];
      var start := FloorTo(points[0].ts, width);
      FirstRunSplit(points, head, tail, width);
      BucketsStep(points, head, tail, width, Gauge);
      GaugeMassConserved(tail, width);
      GaugeMassRest(points, tail, head, width);
      SumAppend(head, tail);
      MeanTimesCount(head);
      hide Buckets, InBucket, RunLength, FirstRun, WeightedSum, Sum, Scale;
      WeightedSumStep(Point(start, Summary(Gauge, head)), Buckets(tail, width, Gauge), points, width);
    }
  }

  lemma GaugeMassRest(points: seq<Point>, tail: seq<Point>, head: seq<Point>, width: int)
    requires width > 0 && Ordered(tail) && head != []
    requires forall p :: p in tail ==> FloorTo(p.ts, width) > FloorTo(head[0].ts, width)
    requires forall start :: start != FloorTo(head[0].ts, width) ==>
      InBucket(points, start, width) == InBucket(tail, start, width)
    ensures WeightedSum(Buckets(tail, width, Gauge), points, width)
         == WeightedSum(Buckets(tail, width, Gauge), tail, width)
  {
    hide FloorTo, Summary, Buckets, InBucket;
    BucketsValues(tail, width, Gauge);
    var rest := Buckets(tail, width, Gauge);
    forall b | b in rest
      ensures InBucket(points, b.ts, width) == InBucket(tail, b.ts, width)
    {
      InBucketMembers(tail, b.ts, width);
      assert InBucket(tail, b.ts, width)[0] in InBucket(tail, b.ts, width);
    }
    WeightedSumSame(rest, points, tail, width);
  }

  lemma WeightedSumStep(first: Point, rest: seq<Point>, points: seq<Point>, width: int)
    requires width > 0
    ensures WeightedSum([first] + rest, points, width) ==
      Scale(first.value, |InBucket(points, first.ts, width)|) + WeightedSum(rest, points, width)
  {
    hide FloorTo, InBucket;
    assert ([first] + rest)[1..] == rest;
  }

  lemma MeanTimesCount(points: seq<Point>)
    requires points != []
    ensures Scale(Summary(Gauge, points), |points|) == Sum(points)
  {
  }

  // ---- laws ------------------------------------------------------------

  /** `Buckets` unfolded once, at its head. */
  lemma BucketsStep(points: seq<Point>, head: seq<Point>, tail: seq<Point>, width: int, kind: Kind)
    requires width > 0 && head != [] && points == head + tail
    requires FirstRun(points, width) == |head|
    ensures Buckets(points, width, kind) ==
      [Point(FloorTo(head[0].ts, width), Summary(kind, head))] + Buckets(tail, width, kind)
  {
    hide FloorTo, Summary;
    assert points[..|head|] == head && points[|head|..] == tail;
  }

  lemma {:induction false} RunLengthAppend(a: seq<Point>, b: seq<Point>, start: int, width: int)
    requires width > 0
    ensures RunLength(a + b, start, width) ==
      if RunLength(a, start, width) < |a| then RunLength(a, start, width)
      else |a| + RunLength(b, start, width)
  {
    hide FloorTo, Summary;
    if a == [] {
      assert a + b == b;
    } else {
      assert (a + b)[1..] == a[1..] + b;
      RunLengthAppend(a[1..], b, start, width);
    }
  }

  lemma FirstRunAppend(a: seq<Point>, b: seq<Point>, width: int)
    requires width > 0 && a != []
    requires b != [] ==> FloorTo(a[|a| - 1].ts, width) != FloorTo(b[0].ts, width)
    ensures FirstRun(a + b, width) == FirstRun(a, width)
  {
    hide FloorTo;
    var start := FloorTo(a[0].ts, width);
    RunLengthAppend(a, b, start, width);
    if FirstRun(a, width) == |a| {
      RunEnd(a, start, width);
    }
  }

  /** Bucketing distributes over a boundary between buckets. */
  lemma {:induction false} BucketsAppend(a: seq<Point>, b: seq<Point>, width: int, kind: Kind)
    requires width > 0
    requires a != [] && b != [] ==> FloorTo(a[|a| - 1].ts, width) != FloorTo(b[0].ts, width)
    ensures Buckets(a + b, width, kind) == Buckets(a, width, kind) + Buckets(b, width, kind)
    decreases |a|
  {
    hide FloorTo, Summary, FirstRun;
    if a == [] {
      assert a + b == b;
    } else {
      hide Buckets;
      var n := FirstRun(a, width);
      var head, tail := a[..n], a[n..];
      FirstRunAppend(a, b, width);
      assert a + b == head + (tail + b) && a == head + tail;
      BucketsStep(a, head, tail, width, kind);
      BucketsStep(a + b, head, tail + b, width, kind);
      BucketsAppend(tail, b, width, kind);
      Assoc([Point(FloorTo(head[0].ts, width), Summary(kind, head))], Buckets(tail, width, kind), Buckets(b, width, kind));
    }
  }

  lemma {:induction false} RunEnd(a: seq<Point>, start: int, width: int)
    requires width > 0 && a != [] && RunLength(a, start, width) == |a|
    ensures FloorTo(a[|a| - 1].ts, width) == start
  {
    hide FloorTo, Summary;
    if |a| > 1 {
      assert a[1..][|a| - 2] == a[|a| - 1];
      RunEnd(a[1..], start, width);
    }
  }

  lemma CounterSummary(points: seq<Point>)
    requires points != []
    ensures Summary(Counter, points) == points[|points| - 1].value
  {
  }

  lemma SingleSummary(kind: Kind, point: Point)
    ensures Summary(kind, [point]) == point.value
  {
    assert Sum([point]) == point.value + Sum([]);
  }

  /** Buckets already collapsed stay as they are. */
  lemma {:induction false} BucketsIdempotent(points: seq<Point>, width: int, kind: Kind)
    requires width > 0 && Ordered(points)
    requires forall p :: p in points ==> p.ts % width == 0
    ensures Buckets(points, width, kind) == points
    decreases |points|
  {
    hide FloorTo, Summary;
    if points != [] {
      forall p | p in points ensures FloorTo(p.ts, width) == p.ts {
        FloorUnique(p.ts, p.ts, width);
      }
      assert points[0] in points && FloorTo(points[0].ts, width) == points[0].ts;
      var tail := points[1..];
      assert |points| > 1 ==> tail[0] == points[1] && points[1] in points;
      assert RunLength(tail, points[0].ts, width) == 0;
      assert FirstRun(points, width) == 1;
      assert points[..1] == [points[0]];
      assert points[0] in points;
      assert Summary(kind, points[..1]) == points[0].value by {
        SingleSummary(kind, points[0]);
      }
      BucketsIdempotent(points[1..], width, kind);
      assert points == [points[0]] + points[1..];
    }
  }

  /** A gauge prefix already collapsed at this width gives the same answer. */
  lemma GaugePrefixCollapsed(a: seq<Point>, b: seq<Point>, width: int, kind: Kind)
    requires width > 0 && Ordered(a)
    requires a != [] && b != [] ==> FloorTo(a[|a| - 1].ts, width) != FloorTo(b[0].ts, width)
    ensures Buckets(Buckets(a, width, kind) + b, width, kind) == Buckets(a + b, width, kind)
  {
    hide FloorTo, Summary;
    var c := Buckets(a, width, kind);
    BucketsMeaning(a, width, kind);
    BucketsIdempotent(c, width, kind);
    if a != [] && b != [] {
      BucketsEnd(a, width, kind);
      FloorBounds(a[|a| - 1].ts, width);
      FloorUnique(c[|c| - 1].ts, c[|c| - 1].ts, width);
    }
    BucketsAppend(c, b, width, kind);
    BucketsAppend(a, b, width, kind);
  }

  lemma {:induction false} BucketsEnd(a: seq<Point>, width: int, kind: Kind)
    requires width > 0 && a != []
    ensures Buckets(a, width, kind) != []
    ensures var c := Buckets(a, width, kind); c[|c| - 1].ts == FloorTo(a[|a| - 1].ts, width)
    decreases |a|
  {
    hide FloorTo, Summary;
    var n := FirstRun(a, width);
    if n == |a| {
      RunEnd(a, FloorTo(a[0].ts, width), width);
    } else {
      BucketsEnd(a[n..], width, kind);
    }
  }

  /**
   Counters compose: collapsing a prefix to a fine width first is invisible at any coarser width
   the fine one divides, wherever the prefix ends.
   */
  lemma {:induction false} CounterPrefixCollapsed(a: seq<Point>, b: seq<Point>, fine: int, coarse: int)
    requires fine > 0 && coarse > 0 && coarse % fine == 0
    ensures Buckets(Buckets(a, fine, Counter) + b, coarse, Counter) == Buckets(a + b, coarse, Counter)
    decreases |a|
  {
    hide FloorTo, Summary;
    if a == [] {
      assert Buckets(a, fine, Counter) + b == a + b;
    } else {
      var n := FirstRun(a, fine);
      var head, tail := a[..n], a[n..];
      var first := Point(FloorTo(a[0].ts, fine), head[n - 1].value);
      assert Summary(Counter, head) == head[n - 1].value by {
        CounterSummary(head);
      }
      var rest := Buckets(tail, fine, Counter) + b;
      assert Buckets(a, fine, Counter) + b == [first] + rest;
      assert a + b == head + (tail + b);
      FloorOfFloor(a[0].ts, fine, coarse);
      var start := FloorTo(first.ts, coarse);
      RunSameCoarse(a, FloorTo(a[0].ts, fine), fine, coarse);
      CounterPrefixCollapsed(tail, b, fine, coarse);
      CounterHeads(first, rest, head, tail + b, coarse);
    }
  }

  /** Counters resample through any finer divisor: bucketing twice is bucketing once at the coarser width. */
  lemma CountersCompose(points: seq<Point>, fine: int, coarse: int)
    requires fine > 0 && coarse > 0 && coarse % fine == 0
    ensures Buckets(Buckets(points, fine, Counter), coarse, Counter) == Buckets(points, coarse, Counter)
  {
    hide FloorTo, Buckets;
    CounterPrefixCollapsed(points, [], fine, coarse);
    assert Buckets(points, fine, Counter) + [] == Buckets(points, fine, Counter) && points + [] == points;
  }

  /** Every point of a fine run lies in one coarse bucket. */
  lemma {:induction false} RunSameCoarse(points: seq<Point>, start: int, fine: int, coarse: int)
    requires fine > 0 && coarse > 0 && coarse % fine == 0
    ensures forall i :: 0 <= i < RunLength(points, start, fine) ==>
      FloorTo(points[i].ts, coarse) == FloorTo(start, coarse)
  {
    hide FloorTo, Summary;
    if RunLength(points, start, fine) > 0 {
      FloorOfFloor(points[0].ts, fine, coarse);
      RunSameCoarse(points[1..], start, fine, coarse);
    }
  }

  lemma {:induction false} RunWhole(points: seq<Point>, start: int, width: int)
    requires width > 0
    requires forall i :: 0 <= i < |points| ==> FloorTo(points[i].ts, width) == start
    ensures RunLength(points, start, width) == |points|
  {
    hide FloorTo, Summary;
    if points != [] {
      RunWhole(points[1..], start, width);
    }
  }

  /** A one-bucket counter head joins the run behind it; the merged bucket keeps the last value. */
  lemma CounterPrepend(head: seq<Point>, rest: seq<Point>, start: int, width: int)
    requires width > 0 && head != []
    requires forall i :: 0 <= i < |head| ==> FloorTo(head[i].ts, width) == start
    ensures var n := RunLength(rest, start, width);
      Buckets(head + rest, width, Counter) ==
      [Point(start, if n == 0 then head[|head| - 1].value else rest[n - 1].value)]
      + Buckets(rest[n..], width, Counter)
  {
    hide FloorTo, Summary, Buckets;
    var n := RunLength(rest, start, width);
    RunLengthAppend(head, rest, start, width);
    RunWhole(head, start, width);
    hide RunLength;
    var run := head + rest[..n];
    assert rest == rest[..n] + rest[n..];
    Assoc(head, rest[..n], rest[n..]);
    BucketsStep(head + rest, run, rest[n..], width, Counter);
    CounterSummary(run);
  }

  /** Replacing a one-bucket head by its last value changes nothing, if the rest buckets alike. */
  lemma CounterHeads(first: Point, rest: seq<Point>, head: seq<Point>, others: seq<Point>, width: int)
    requires width > 0 && head != []
    requires first.value == head[|head| - 1].value
    requires forall i :: 0 <= i < |head| ==> FloorTo(head[i].ts, width) == FloorTo(first.ts, width)
    requires Buckets(rest, width, Counter) == Buckets(others, width, Counter)
    ensures Buckets([first] + rest, width, Counter) == Buckets(head + others, width, Counter)
  {
    hide FloorTo, Buckets, RunLength;
    var start := FloorTo(first.ts, width);
    CounterPrepend([first], rest, start, width);
    CounterPrepend(head, others, start, width);
    RunsAgree(rest, others, start, width);
  }

  /** Two sequences that bucket alike start with the same run summary, or neither starts in `start`. */
  lemma RunsAgree(rest: seq<Point>, others: seq<Point>, start: int, width: int)
    requires width > 0 && Buckets(rest, width, Counter) == Buckets(others, width, Counter)
    ensures var n, m := RunLength(rest, start, width), RunLength(others, start, width);
      && (n == 0 <==> m == 0)
      && (n > 0 ==> rest[n - 1].value == others[m - 1].value)
      && Buckets(rest[n..], width, Counter) == Buckets(others[m..], width, Counter)
  {
    hide FloorTo, Summary;
    var n, m := RunLength(rest, start, width), RunLength(others, start, width);
    if rest == [] || others == [] {
      assert rest == others == [];
    } else {
      var p, q := Buckets(rest, width, Counter), Buckets(others, width, Counter);
      var i, j := FirstRun(rest, width), FirstRun(others, width);
      assert rest == rest[..i] + rest[i..] && others == others[..j] + others[j..];
      BucketsStep(rest, rest[..i], rest[i..], width, Counter);
      BucketsStep(others, others[..j], others[j..], width, Counter);
      hide Buckets;
      CounterSummary(rest[..i]);
      CounterSummary(others[..j]);
      assert p[0].ts == FloorTo(rest[0].ts, width) && q[0].ts == FloorTo(others[0].ts, width);
      assert p[1..] == Buckets(rest[i..], width, Counter) && q[1..] == Buckets(others[j..], width, Counter);
      if p[0].ts != start {
        assert rest[n..] == rest && others[m..] == others;
      }
    }
  }
}
