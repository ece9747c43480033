/**
 The mac exporter's frame and freshness protocol: a supervisor publishes numbered frames, serialised
 scrapes wait for one newer than the last served, and a bounded cache re-serves a reading.
 */
module Freshness {
  import opened Prelude

  /** `MAX_READING_AGE` and `MAX_BUDGET`; instants are milliseconds on one monotonic clock. */
  const MAX_READING_AGE := 500
  const MAX_BUDGET := 900

  /** How far apart one scraper starts its scrapes, at the least. */
  const SCRAPE_INTERVAL := 1000

  /** A completed powermetrics frame; `reading` stands for what is parsed from it. */
  datatype Frame = Frame(reading: string, completedAt: nat)

  datatype Outcome = Sampled(frame: Frame) | Failed(error: string)

  datatype Published = Published(generation: nat, outcome: Option<Outcome>)

  datatype Worker = Worker(generation: nat, servedGeneration: nat, published: Published)

  datatype SampleResult = Served(generation: nat, frame: Frame) | SourceFailed(error: string) | TimedOut

  /** What the supervisor published up to one wake-up of a waiting scrape, and when the last of it came. */
  datatype WakeUp = WakeUp(outcomes: seq<Outcome>, at: nat)

  /** How a sample ended, and when. */
  datatype Awaited = Awaited(worker: Worker, result: SampleResult, at: nat)

  const NEW_WORKER := Worker(0, 0, Published(0, None))

  function PublishOne(w: Worker, outcome: Outcome): Worker {
    w.(generation := w.generation + 1, published := Published(w.generation + 1, Some(outcome)))
  }

  function PublishAll(w: Worker, outcomes: seq<Outcome>): (after: Worker)
    ensures after.servedGeneration == w.servedGeneration
    decreases |outcomes|
  {
    if outcomes == [] then w else PublishAll(PublishOne(w, outcomes[0]), outcomes[1..])
  }

  /** What a waiting scrape makes of the published slot, if it ends the wait. */
  function Check(w: Worker): Option<SampleResult> {
    match w.published.outcome
    case None => None
    case Some(Sampled(frame)) =>
      if w.published.generation > w.servedGeneration then Some(Served(w.published.generation, frame)) else None
    case Some(Failed(error)) => Some(SourceFailed(error))
  }

  /** The wait from `now` on: a look at the slot at once and after each wake-up, until the deadline. */
  function Await(w: Worker, wakeUps: seq<WakeUp>, now: nat, deadline: nat): Awaited
    decreases |wakeUps|
  {
    match Check(w)
    case Some(result) => Awaited(if result.Served? then w.(servedGeneration := result.generation) else w, result, now)
    case None =>
      if wakeUps == [] then Awaited(w, TimedOut, deadline)
      else Await(PublishAll(w, wakeUps[0].outcomes), wakeUps[1..], wakeUps[0].at, deadline)
  }

  class SamplerWorker {
    var generation: nat
    var servedGeneration: nat
    var published: Published

    function View(): Worker
      reads this
    {
      Worker(generation, servedGeneration, published)
    }

    constructor ()
      ensures View() == NEW_WORKER
    {
      generation := 0;
      servedGeneration := 0;
      published := Published(0, None);
    }

    method Publish(outcome: Outcome)
      modifies this
      ensures View() == PublishOne(old(View()), outcome)
    {
      generation := generation + 1;
      published := Published(generation, Some(outcome));
    }

    /** `sample`: waits for a frame newer than the last one served, within the budget. */
    method Sample(wakeUps: seq<WakeUp>, started: nat) returns (result: SampleResult, at: nat)
      modifies this
      ensures Awaited(View(), result, at) == Await(old(View()), wakeUps, started, started + MAX_BUDGET)
    {
      var lastServed := servedGeneration;
      var next := 0;
      at := started;
      assert wakeUps[0..] == wakeUps;
      while true
        invariant 0 <= next <= |wakeUps|
        invariant servedGeneration == lastServed
        invariant Await(View(), wakeUps[next..], at, started + MAX_BUDGET) ==
          Await(old(View()), wakeUps, started, started + MAX_BUDGET)
        decreases |wakeUps| - next
      {
        match published.outcome {
          case Some(Sampled(frame)) =>
            if published.generation > lastServed {
              servedGeneration := published.generation;
              return Served(published.generation, frame), at;
            }
          case Some(Failed(error)) => return SourceFailed(error), at;
          case None =>
        }
        if next == |wakeUps| {
          return TimedOut, started + MAX_BUDGET;
        }
        assert wakeUps[next..][1..] == wakeUps[next + 1..];
        PublishBatch(wakeUps[next].outcomes);
        at := wakeUps[next].at;
        next := next + 1;
      }
    }

    method PublishBatch(outcomes: seq<Outcome>)
      modifies this
      ensures View() == PublishAll(old(View()), outcomes)
    {
      assert outcomes[0..] == outcomes;
      for i := 0 to |outcomes|
        invariant PublishAll(View(), outcomes[i..]) == PublishAll(old(View()), outcomes)
      {
        assert outcomes[i..][1..] == outcomes[i + 1..];
        Publish(outcomes[i]);
      }
      assert outcomes[|outcomes|..] == [];
    }
  }

  // ---- the exporter ---------------------------------------------------------------------

  datatype Cached = Cached(generation: nat, frame: Frame)

  datatype State = State(worker: Worker, cached: Option<Cached>, lastUp: Option<bool>, logged: nat)

  const START := State(NEW_WORKER, None, None, 0)

  /** A served reading, and when; `generation` is the model's name for the frame it came from. */
  datatype Reply = Up(generation: nat, frame: Frame, at: nat, reused: bool) | Down

  /**
   A scrape is two steps, between which any others may come: a glance at the cache without the sampling
   lock and, if that does not answer it, its turn under the lock: a second look at the cache, then a
   sample. `slack` is what passes between the moment that ends the wait and the reply. A run lists steps
   in the order they take effect, which for a turn is when its wait ends: glances taken meanwhile come
   before it, and what is published or glanced at during its slack after it.
   */
  datatype Event =
    | Publish(outcome: Outcome, at: nat)
    | Glance(at: nat)
    | Turn(at: nat, wakeUps: seq<WakeUp>, slack: nat)

  /** The state after an event, the reply it sends, if any, when it took effect and when it was over. */
  datatype Response = Response(state: State, reply: Option<Reply>, settled: nat, end: nat)

  /** `elapsed` saturates at zero. */
  function AgeAt(frame: Frame, now: nat): nat {
    if now >= frame.completedAt then now - frame.completedAt else 0
  }

  predicate IsFresh(cached: Option<Cached>, now: nat, maxAge: nat) {
    cached.Some? && AgeAt(cached.value.frame, now) <= maxAge
  }

  function NoteState(s: State, up: bool): State {
    if s.lastUp == Some(up) then s else s.(lastUp := Some(up), logged := s.logged + 1)
  }

  function FromCache(cached: Option<Cached>, now: nat, maxAge: nat): Option<Reply> {
    if IsFresh(cached, now, maxAge) then Some(Up(cached.value.generation, cached.value.frame, now, true)) else None
  }

  function Respond(s: State, e: Event, maxAge: nat): Response {
    match e
    case Publish(outcome, at) => Response(s.(worker := PublishOne(s.worker, outcome)), None, at, at)
    case Glance(at) => Response(s, FromCache(s.cached, at, maxAge), at, at)
    case Turn(at, wakeUps, slack) =>
      if IsFresh(s.cached, at, maxAge) then Response(s, FromCache(s.cached, at, maxAge), at, at)
      else
        var awaited := Await(s.worker, wakeUps, at, at + MAX_BUDGET);
        var end := awaited.at + slack;
        match awaited.result
        case Served(generation, frame) =>
          Response(NoteState(s.(worker := awaited.worker, cached := Some(Cached(generation, frame))), true),
                   Some(Up(generation, frame, end, false)), awaited.at, end)
        case _ => Response(NoteState(s.(worker := awaited.worker), false), Some(Down), awaited.at, end)
  }

  class Exporter {
    const worker: SamplerWorker
    const maxAge: nat
    var cached: Option<Cached>
    var lastUp: Option<bool>
    var logged: nat

    function View(): State
      reads this, worker
    {
      State(worker.View(), cached, lastUp, logged)
    }

    constructor (maxAge: nat)
      ensures View() == START && this.maxAge == maxAge && fresh(worker)
    {
      worker := new SamplerWorker();
      this.maxAge := maxAge;
      cached := None;
      lastUp := None;
      logged := 0;
    }

    method FreshReading(now: nat) returns (reading: Option<Cached>)
      ensures reading == if IsFresh(cached, now, maxAge) then cached else None
    {
      if cached.None? || AgeAt(cached.value.frame, now) > maxAge {
        return None;
      }
      reading := cached;
    }

    method NoteUp(up: bool)
      modifies this
      ensures View() == NoteState(old(View()), up)
    {
      if lastUp != Some(up) {
        lastUp := Some(up);
        logged := logged + 1;
      }
    }

    method TakeTurn(at: nat, wakeUps: seq<WakeUp>, slack: nat) returns (reply: Reply, settled: nat, end: nat)
      modifies this, worker
      ensures Response(View(), Some(reply), settled, end) == Respond(old(View()), Turn(at, wakeUps, slack), maxAge)
    {
      var reading := FreshReading(at);
      if reading.Some? {
        return Up(reading.value.generation, reading.value.frame, at, true), at, at;
      }
      var result;
      result, settled := worker.Sample(wakeUps, at);
      end := settled + slack;
      match result {
        case Served(generation, frame) =>
          cached := Some(Cached(generation, frame));
          NoteUp(true);
          reply := Up(generation, frame, end, false);
        case SourceFailed(_) =>
          NoteUp(false);
          reply := Down;
        case TimedOut =>
          NoteUp(false);
          reply := Down;
      }
    }

    /** `scrape` with no other scrape between its two steps. */
    method ScrapeOnce(first: nat, second: nat, wakeUps: seq<WakeUp>, slack: nat) returns (reply: Reply, settled: nat, end: nat)
      modifies this, worker
      ensures
        var glance := Respond(old(View()), Glance(first), maxAge);
        Response(View(), Some(reply), settled, end) ==
          if glance.reply.Some? then glance else Respond(glance.state, Turn(second, wakeUps, slack), maxAge)
    {
      var reading := FreshReading(first);
      if reading.Some? {
        return Up(reading.value.generation, reading.value.frame, first, true), first, first;
      }
      reply, settled, end := TakeTurn(second, wakeUps, slack);
    }
  }

  // ---- runs --------------------------------------------------------------------------------

  function Replay(events: seq<Event>, maxAge: nat): State {
    if events == [] then START else Respond(Replay(events[..|events| - 1], maxAge), events[|events| - 1], maxAge).state
  }

  /** What event `i` of a run does. */
  function ResponseAt(events: seq<Event>, i: nat, maxAge: nat): Response
    requires i < |events|
  {
    Respond(Replay(events[..i], maxAge), events[i], maxAge)
  }

  function Sent(reply: Option<Reply>): seq<Reply> {
    if reply.Some? then [reply.value] else []
  }

  /** The replies so far, in order. */
  function Replies(events: seq<Event>, maxAge: nat): seq<Reply> {
    if events == [] then []
    else Replies(events[..|events| - 1], maxAge) + Sent(ResponseAt(events, |events| - 1, maxAge).reply)
  }

  /**
   How far a run has come: the last moment the published slot is accounted for, the end of the last turn
   under the sampling lock, and the last moment the cache was read or written.
   */
  datatype Clocks = Clocks(source: nat, lock: nat, cache: nat)

  function Advance(clocks: Clocks, e: Event, response: Response): Clocks {
    match e
    case Publish(_, at) => clocks.(source := at)
    case Glance(at) => clocks.(cache := at)
    case Turn(_, _, _) => Clocks(response.settled, response.end, response.settled)
  }

  function ClocksAfter(events: seq<Event>, maxAge: nat): Clocks {
    if events == [] then Clocks(0, 0, 0)
    else
      var front, last := events[..|events| - 1], |events| - 1;
      Advance(ClocksAfter(front, maxAge), events[last], ResponseAt(events, last, maxAge))
  }

  ghost predicate CompletedWithin(outcome: Outcome, from: nat, to: nat) {
    outcome.Sampled? ==> from <= outcome.frame.completedAt <= to
  }

  /**
   Wake-ups in time order, before the deadline. Frames complete as they are published, so a group's
   frames lie between the look before it and its own time, and its last one completes at that time.
   */
  ghost predicate WakesFrom(wakeUps: seq<WakeUp>, from: nat, deadline: nat)
    decreases |wakeUps|
  {
    wakeUps == [] ||
    (var wake := wakeUps[0];
     && from <= wake.at <= deadline
     && (forall outcome :: outcome in wake.outcomes ==> CompletedWithin(outcome, from, wake.at))
     && (wake.outcomes != [] ==> CompletedWithin(wake.outcomes[|wake.outcomes| - 1], wake.at, wake.at))
     && WakesFrom(wakeUps[1..], wake.at, deadline))
  }

  /**
   An event that can come next. Publications keep their order, turns exclude each other, and the cache is
   read and written in the order of events; but a glance may start while a turn waits, and frames may be
   published before a turn is over.
   */
  ghost predicate Timely(e: Event, settled: nat, clocks: Clocks) {
    match e
    case Publish(outcome, at) => clocks.source <= at && CompletedWithin(outcome, at, at)
    case Glance(at) => clocks.cache <= at
    case Turn(at, wakeUps, _) =>
      clocks.lock <= at && clocks.source <= at && clocks.cache <= settled && WakesFrom(wakeUps, at, at + MAX_BUDGET)
  }

  ghost predicate OnClock(events: seq<Event>, maxAge: nat) {
    forall i :: 0 <= i < |events| ==> Timely(events[i], ResponseAt(events, i, maxAge).settled, ClocksAfter(events[..i], maxAge))
  }

  // ---- what one wait can answer ---------------------------------------------------------------

  ghost predicate Numbered(w: Worker) {
    w.servedGeneration <= w.generation && w.published.generation == w.generation
  }

  lemma {:induction false} PublishAllNumbered(w: Worker, outcomes: seq<Outcome>)
    requires Numbered(w)
    ensures Numbered(PublishAll(w, outcomes))
    decreases |outcomes|
  {
    if outcomes != [] {
      PublishAllNumbered(PublishOne(w, outcomes[0]), outcomes[1..]);
    }
  }

  /** A sample only ever returns a generation above every one served before, and remembers it. */
  lemma {:induction false} AwaitAdvances(w: Worker, wakeUps: seq<WakeUp>, now: nat, deadline: nat)
    requires Numbered(w)
    ensures var awaited := Await(w, wakeUps, now, deadline);
      && Numbered(awaited.worker)
      && (awaited.result.Served? ==> w.servedGeneration < awaited.result.generation == awaited.worker.servedGeneration)
      && (!awaited.result.Served? ==> awaited.worker.servedGeneration == w.servedGeneration)
    decreases |wakeUps|
  {
    if Check(w).None? && wakeUps != [] {
      PublishAllNumbered(w, wakeUps[0].outcomes);
      AwaitAdvances(PublishAll(w, wakeUps[0].outcomes), wakeUps[1..], wakeUps[0].at, deadline);
    }
  }

  /** Frames a worker may still serve were completed by `now`. */
  ghost predicate CompletedBy(w: Worker, now: nat) {
    w.published.outcome.Some? ==> CompletedWithin(w.published.outcome.value, 0, now)
  }

  /** The slot holds the last outcome published. */
  lemma {:induction false} PublishAllLast(w: Worker, outcomes: seq<Outcome>)
    ensures PublishAll(w, outcomes).published.outcome ==
      if outcomes == [] then w.published.outcome else Some(outcomes[|outcomes| - 1])
    decreases |outcomes|
  {
    if outcomes != [] {
      PublishAllLast(PublishOne(w, outcomes[0]), outcomes[1..]);
    }
  }

  /**
   A wait ends between its start and its deadline. A frame it serves had been published when it began, or
   completes at the very moment that ends the wait.
   */
  lemma {:induction false} AwaitTimes(w: Worker, wakeUps: seq<WakeUp>, now: nat, deadline: nat)
    requires CompletedBy(w, now) && now <= deadline && WakesFrom(wakeUps, now, deadline)
    ensures var awaited := Await(w, wakeUps, now, deadline);
      && CompletedBy(awaited.worker, awaited.at)
      && now <= awaited.at <= deadline
      && (awaited.result.Served? ==>
            if Check(w).Some? then Check(w) == Some(awaited.result) && awaited.at == now
            else awaited.result.frame.completedAt == awaited.at)
    decreases |wakeUps|
  {
    if Check(w).None? && wakeUps != [] {
      var wake := wakeUps[0];
      var woken := PublishAll(w, wake.outcomes);
      PublishAllLast(w, wake.outcomes);
      if wake.outcomes == [] {
        assert woken == w;
      }
      AwaitTimes(woken, wakeUps[1..], wake.at, deadline);
    }
  }

  // ---- what every run keeps ----------------------------------------------------------------------

  /**
   Served replies are numbered below the worker's mark; a cached frame carries the mark itself and was
   complete when it was cached; and a reply that repeats a generation repeats its frame.
   */
  ghost predicate Consistent(s: State, replies: seq<Reply>, clocks: Clocks) {
    && Numbered(s.worker) && CompletedBy(s.worker, clocks.source)
    && (forall r :: r in replies && r.Up? ==> r.generation <= s.worker.servedGeneration)
    && (s.cached.Some? ==>
          && s.cached.value.generation == s.worker.servedGeneration
          && s.cached.value.frame.completedAt <= clocks.lock
          && s.cached.value.frame.completedAt <= clocks.cache)
    && (forall r :: r in replies && r.Up? && s.cached.Some? && r.generation == s.worker.servedGeneration ==> r.frame == s.cached.value.frame)
    && (forall r :: r in replies && r.Up? ==> s.cached.Some?)
  }

  /** How a later reply relates to an earlier one. */
  ghost predicate InOrder(earlier: Reply, later: Reply, maxAge: nat) {
    earlier.Up? && later.Up? ==>
      && earlier.generation <= later.generation
      && (!later.reused ==> earlier.generation < later.generation)
      && (earlier.generation == later.generation ==>
            later.reused && later.frame == earlier.frame && later.at <= later.frame.completedAt + maxAge)
  }

  /** When an event takes effect, ends, and replies. */
  ghost predicate InTime(e: Event, response: Response) {
    && e.at <= response.settled <= response.end
    && (response.reply.Some? && response.reply.value.Up? ==>
          && e.at <= response.reply.value.at <= response.end
          && response.reply.value.frame.completedAt <= response.reply.value.at
          && (response.reply.value.reused ==> response.settled == response.end))
  }

  lemma RespondConsistent(s: State, replies: seq<Reply>, clocks: Clocks, e: Event, maxAge: nat)
    requires Consistent(s, replies, clocks) && Timely(e, Respond(s, e, maxAge).settled, clocks)
    ensures var response := Respond(s, e, maxAge);
      && Consistent(response.state, replies + Sent(response.reply), Advance(clocks, e, response))
      && InTime(e, response)
      && forall r :: r in replies && response.reply.Some? ==> InOrder(r, response.reply.value, maxAge)
  {
    if e.Turn? {
      assert CompletedBy(s.worker, e.at);
      AwaitAdvances(s.worker, e.wakeUps, e.at, e.at + MAX_BUDGET);
      AwaitTimes(s.worker, e.wakeUps, e.at, e.at + MAX_BUDGET);
    } else {
      hide Await;
    }
  }

  /** A turn is over within nine tenths of a second and whatever passes before its reply goes out. */
  lemma TurnWithinBudget(s: State, e: Event, maxAge: nat)
    requires e.Turn? && CompletedBy(s.worker, e.at) && WakesFrom(e.wakeUps, e.at, e.at + 900)
    ensures var response := Respond(s, e, maxAge);
      e.at <= response.settled <= e.at + 900 && response.settled <= response.end <= response.settled + e.slack
  {
    hide Await;
    AwaitTimes(s.worker, e.wakeUps, e.at, e.at + MAX_BUDGET);
  }

  lemma OnClockPrefix(events: seq<Event>, n: nat, maxAge: nat)
    requires OnClock(events, maxAge) && n <= |events|
    ensures OnClock(events[..n], maxAge)
  {
    hide Timely, ClocksAfter, Respond;
    var front := events[..n];
    forall i | 0 <= i < |front|
      ensures Timely(front[i], ResponseAt(front, i, maxAge).settled, ClocksAfter(front[..i], maxAge))
    {
      assert front[..i] == events[..i];
    }
  }

  /** What each step adds to a run, unfolded once. */
  lemma RunStep(events: seq<Event>, maxAge: nat) returns (front: seq<Event>, last: Event)
    requires events != [] && OnClock(events, maxAge)
    ensures events == front + [last] && front == events[..|events| - 1] && OnClock(front, maxAge)
    ensures var response := Respond(Replay(front, maxAge), last, maxAge);
      && ResponseAt(events, |events| - 1, maxAge) == response
      && Timely(last, response.settled, ClocksAfter(front, maxAge))
      && Replay(events, maxAge) == response.state
      && ClocksAfter(events, maxAge) == Advance(ClocksAfter(front, maxAge), last, response)
      && Replies(events, maxAge) == Replies(front, maxAge) + Sent(response.reply)
  {
    hide Respond, Timely, Advance;
    front, last := events[..|events| - 1], events[|events| - 1];
    OnClockPrefix(events, |events| - 1, maxAge);
  }

  lemma {:induction false} RunConsistent(events: seq<Event>, maxAge: nat)
    requires OnClock(events, maxAge)
    ensures Consistent(Replay(events, maxAge), Replies(events, maxAge), ClocksAfter(events, maxAge))
  {
    if events != [] {
      var front, last := RunStep(events, maxAge);
      RunConsistent(front, maxAge);
      RespondConsistent(Replay(front, maxAge), Replies(front, maxAge), ClocksAfter(front, maxAge), last, maxAge);
      hide Respond, OnClock, Consistent, Replay, Replies, ClocksAfter, Advance;
    }
  }

  lemma {:induction false} ReplyListed(events: seq<Event>, i: nat, maxAge: nat)
    requires i < |events| && ResponseAt(events, i, maxAge).reply.Some?
    ensures ResponseAt(events, i, maxAge).reply.value in Replies(events, maxAge)
  {
    hide Respond;
    if i < |events| - 1 {
      var front := events[..|events| - 1];
      assert front[..i] == events[..i];
      ReplyListed(front, i, maxAge);
    }
  }

  /** One event against everything before it. */
  lemma EventInRun(events: seq<Event>, j: nat, maxAge: nat)
    requires OnClock(events, maxAge) && j < |events|
    ensures var response := ResponseAt(events, j, maxAge);
      && InTime(events[j], response)
      && Timely(events[j], response.settled, ClocksAfter(events[..j], maxAge))
      && ClocksAfter(events[..j + 1], maxAge) == Advance(ClocksAfter(events[..j], maxAge), events[j], response)
      && (forall r :: r in Replies(events[..j], maxAge) && response.reply.Some? ==> InOrder(r, response.reply.value, maxAge))
  {
    hide Respond, Consistent, Replay, Replies, InOrder, InTime, Timely, Advance;
    var front := events[..j];
    OnClockPrefix(events, j, maxAge);
    RunConsistent(front, maxAge);
    RespondConsistent(Replay(front, maxAge), Replies(front, maxAge), ClocksAfter(front, maxAge), events[j], maxAge);
    assert events[..j + 1][..j] == front;
  }

  /** Any two replies of a run. */
  lemma RepliesInOrder(events: seq<Event>, i: nat, j: nat, maxAge: nat)
    requires OnClock(events, maxAge) && i < j < |events|
    requires ResponseAt(events, i, maxAge).reply.Some? && ResponseAt(events, j, maxAge).reply.Some?
    ensures InOrder(ResponseAt(events, i, maxAge).reply.value, ResponseAt(events, j, maxAge).reply.value, maxAge)
  {
    hide Respond, Replay, Replies, InOrder;
    var front := events[..j];
    assert front[..i] == events[..i];
    ReplyListed(front, i, maxAge);
    EventInRun(events, j, maxAge);
  }

  /** The cache is read and written in the order of events. */
  lemma {:induction false} CacheClockRises(events: seq<Event>, i: nat, n: nat, maxAge: nat)
    requires OnClock(events, maxAge) && i < n <= |events| && !events[i].Publish?
    ensures ResponseAt(events, i, maxAge).settled <= ClocksAfter(events[..n], maxAge).cache
    decreases n
  {
    hide OnClock, ClocksAfter;
    EventInRun(events, n - 1, maxAge);
    if i < n - 1 {
      CacheClockRises(events, i, n - 1, maxAge);
    }
  }

  // ---- no frame twice, and how long it may be served ----------------------------------------------

  /** Events `i` and `j` both serve a reading, `j` later. */
  ghost predicate BothServe(events: seq<Event>, i: nat, j: nat, maxAge: nat) {
    && i < j < |events| && OnClock(events, maxAge)
    && ResponseAt(events, i, maxAge).reply.Some? && ResponseAt(events, i, maxAge).reply.value.Up?
    && ResponseAt(events, j, maxAge).reply.Some? && ResponseAt(events, j, maxAge).reply.value.Up?
  }

  function ReplyAt(events: seq<Event>, i: nat, maxAge: nat): Reply
    requires i < |events| && ResponseAt(events, i, maxAge).reply.Some?
  {
    ResponseAt(events, i, maxAge).reply.value
  }

  /** Generations freshly sampled strictly increase over any run: no frame is taken from the source twice. */
  lemma SampledGenerationsIncrease(events: seq<Event>, maxAge: nat, i: nat, j: nat)
    requires BothServe(events, i, j, maxAge) && !ReplyAt(events, j, maxAge).reused
    ensures ReplyAt(events, i, maxAge).generation < ReplyAt(events, j, maxAge).generation
  {
    hide ResponseAt, OnClock;
    RepliesInOrder(events, i, j, maxAge);
  }

  /** If two scrapes serve one frame, the later one does so no more than `maxAge` after the frame completed. */
  lemma RepeatedServeIsYoung(events: seq<Event>, maxAge: nat, i: nat, j: nat)
    requires BothServe(events, i, j, maxAge)
    requires ReplyAt(events, i, maxAge).generation == ReplyAt(events, j, maxAge).generation
    ensures var earlier, later := ReplyAt(events, i, maxAge), ReplyAt(events, j, maxAge);
      later.frame == earlier.frame && later.at <= later.frame.completedAt + maxAge
  {
    hide ResponseAt, OnClock;
    RepliesInOrder(events, i, j, maxAge);
  }

  /**
   The scrape that starts at glance `g` and is answered by event `i`: by the glance itself or, when that
   finds nothing fresh, by a turn it takes afterwards.
   */
  ghost predicate IsScrape(events: seq<Event>, g: nat, i: nat, maxAge: nat) {
    && g <= i < |events| && events[g].Glance? && ResponseAt(events, i, maxAge).reply.Some?
    && (g < i ==> events[i].Turn? && ResponseAt(events, g, maxAge).reply.None? && events[g].at <= events[i].at)
  }

  /**
   A repeat one interval on: a scrape of duration `w` and another, started at least a scrape interval after
   it started, are served one frame, in whichever order they are answered.
   */
  ghost predicate Repeats(events: seq<Event>, g: nat, i: nat, h: nat, j: nat, w: nat, maxAge: nat) {
    && IsScrape(events, g, i, maxAge) && IsScrape(events, h, j, maxAge)
    && (BothServe(events, i, j, maxAge) || BothServe(events, j, i, maxAge))
    && ResponseAt(events, i, maxAge).end == events[g].at + w
    && events[h].at >= events[g].at + SCRAPE_INTERVAL
    && ReplyAt(events, i, maxAge).generation == ReplyAt(events, j, maxAge).generation
  }

  /**
   However scrapes overlap, one that took less than the interval minus the maximum age never shares its
   frame with a scrape started an interval later.
   */
  lemma QuickScrapeNotRepeated(events: seq<Event>, g: nat, i: nat, h: nat, j: nat, w: nat, maxAge: nat)
    ensures Repeats(events, g, i, h, j, w, maxAge) ==> w + maxAge >= SCRAPE_INTERVAL
  {
    hide ResponseAt, OnClock;
    if Repeats(events, g, i, h, j, w, maxAge) {
      EventInRun(events, i, maxAge);
      EventInRun(events, j, maxAge);
      if i < j {
        RepeatedServeIsYoung(events, maxAge, i, j);
      } else {
        RepliesInOrder(events, j, i, maxAge);
        CacheClockRises(events, j, i, maxAge);
      }
    }
  }

  /** A scraper alone, its frame completing `w` into the wait, and its next scrape one interval later. */
  function LoneScraper(reading: string, w: nat): seq<Event> {
    [Glance(0), Turn(0, [WakeUp([Sampled(Frame(reading, w))], w)], 0), Glance(SCRAPE_INTERVAL)]
  }

  /** The same, but after waiting for the sampling lock, and answered at once. */
  function LateTurn(reading: string, w: nat): seq<Event> {
    [Glance(0), Turn(w, [WakeUp([Sampled(Frame(reading, w))], w)], 0), Glance(Max(SCRAPE_INTERVAL, w))]
  }

  /** The first turn of a run, waiting for one frame. */
  lemma OneWakeUp(frame: Frame, turnAt: nat)
    requires turnAt <= frame.completedAt <= turnAt + MAX_BUDGET
    ensures var wake := WakeUp([Sampled(frame)], frame.completedAt);
      var worker := PublishOne(NEW_WORKER, Sampled(frame)).(servedGeneration := 1);
      && WakesFrom([wake], turnAt, turnAt + MAX_BUDGET)
      && forall maxAge: nat :: Respond(START, Turn(turnAt, [wake], 0), maxAge) ==
           Response(State(worker, Some(Cached(1, frame)), Some(true), 1), Some(Up(1, frame, frame.completedAt, false)),
                    frame.completedAt, frame.completedAt)
  {
    var wake := WakeUp([Sampled(frame)], frame.completedAt);
    assert [wake][1..] == [] && wake.outcomes[1..] == [];
    var published := PublishOne(NEW_WORKER, Sampled(frame));
    assert PublishAll(NEW_WORKER, wake.outcomes) == published;
    assert Check(published) == Some(Served(1, frame));
    assert Await(published, [], wake.at, turnAt + MAX_BUDGET) == Awaited(published.(servedGeneration := 1), Served(1, frame), wake.at);
    assert Await(NEW_WORKER, [wake], turnAt, turnAt + MAX_BUDGET) == Await(published, [], wake.at, turnAt + MAX_BUDGET);
  }

  /** Three such events, worked through. */
  lemma RepeatingRun(frame: Frame, turnAt: nat, glanceAt: nat, maxAge: nat)
    requires turnAt <= frame.completedAt <= turnAt + MAX_BUDGET
    requires frame.completedAt <= glanceAt <= frame.completedAt + maxAge && glanceAt >= SCRAPE_INTERVAL
    ensures var events := [Glance(0), Turn(turnAt, [WakeUp([Sampled(frame)], frame.completedAt)], 0), Glance(glanceAt)];
      Repeats(events, 0, 1, 2, 2, frame.completedAt, maxAge)
  {
    var wake := WakeUp([Sampled(frame)], frame.completedAt);
    var events := [Glance(0), Turn(turnAt, [wake], 0), Glance(glanceAt)];
    assert events[..0] == [] && events[..1] == [events[0]] && events[..2] == [events[0], events[1]];
    assert events[..1][..0] == [] && events[..2][..1] == events[..1];
    assert Replay(events[..1], maxAge) == START;
    OneWakeUp(frame, turnAt);
    var turn := Respond(START, events[1], maxAge);
    assert Replay(events[..2], maxAge) == turn.state;
    assert ResponseAt(events, 2, maxAge).reply == Some(Up(1, frame, glanceAt, true));
    assert ClocksAfter(events[..1], maxAge) == Clocks(0, 0, 0);
    assert ClocksAfter(events[..2], maxAge) == Clocks(frame.completedAt, frame.completedAt, frame.completedAt);
  }

  /**
   Scrapes a second apart can be handed one measurement: a lone scraper whose first scrape waits `w`, for
   any wait the budget allows of at least the interval less the maximum age.
   */
  lemma LoneScraperRepeats(reading: string, w: nat)
    requires 500 <= w <= 900
    ensures Repeats(LoneScraper(reading, w), 0, 1, 2, 2, w, MAX_READING_AGE)
  {
    hide Repeats;
    RepeatingRun(Frame(reading, w), 0, SCRAPE_INTERVAL, MAX_READING_AGE);
  }

  /**
   Exactly how long a scrape may take for its frame never to come back a scrape interval after the scrape
   started, whatever else the run holds: less than the interval less the maximum age.
   */
  lemma RepeatsExactly(w: nat, maxAge: nat)
    ensures (exists events, g, i, h, j :: Repeats(events, g, i, h, j, w, maxAge)) <==> w + maxAge >= SCRAPE_INTERVAL
  {
    hide Repeats;
    if w + maxAge >= SCRAPE_INTERVAL {
      RepeatingRun(Frame("reading", w), w, Max(SCRAPE_INTERVAL, w), maxAge);
      assert Repeats(LateTurn("reading", w), 0, 1, 2, 2, w, maxAge);
    }
    forall events, g, i, h, j | Repeats(events, g, i, h, j, w, maxAge)
      ensures w + maxAge >= SCRAPE_INTERVAL
    {
      QuickScrapeNotRepeated(events, g, i, h, j, w, maxAge);
    }
  }

  /**
   What the cache is for: a scrape that starts while another waits, and takes its turn when that one is
   answered, is served the same frame without a sample of its own.
   */
  lemma BurstShares(reading: string, started: nat, completed: nat)
    requires started <= completed <= MAX_BUDGET
    ensures var frame := Frame(reading, completed);
      var events := [Glance(0), Glance(started), Turn(0, [WakeUp([Sampled(frame)], completed)], 0), Turn(completed, [], 0)];
      && OnClock(events, MAX_READING_AGE)
      && IsScrape(events, 0, 2, MAX_READING_AGE) && IsScrape(events, 1, 3, MAX_READING_AGE)
      && ReplyAt(events, 2, MAX_READING_AGE) == Up(1, frame, completed, false)
      && ReplyAt(events, 3, MAX_READING_AGE) == Up(1, frame, completed, true)
  {
    var frame := Frame(reading, completed);
    var wake := WakeUp([Sampled(frame)], completed);
    var events := [Glance(0), Glance(started), Turn(0, [wake], 0), Turn(completed, [], 0)];
    var p1, p2, p3 := events[..1], events[..2], events[..3];
    assert events[..0] == [] && p1[..0] == [] && p2[..1] == p1 && p3[..2] == p2;
    assert Replay(p1, MAX_READING_AGE) == Respond(START, Glance(0), MAX_READING_AGE).state == START;
    assert Replay(p2, MAX_READING_AGE) == Respond(START, Glance(started), MAX_READING_AGE).state == START;
    OneWakeUp(frame, 0);
    assert ResponseAt(p1, 0, MAX_READING_AGE) == Response(START, None, 0, 0);
    assert ClocksAfter(p1, MAX_READING_AGE) == Clocks(0, 0, 0);
    assert ResponseAt(p2, 1, MAX_READING_AGE) == Response(START, None, started, started);
    assert ClocksAfter(p2, MAX_READING_AGE) == Clocks(0, 0, started);
    var turn := Respond(START, events[2], MAX_READING_AGE);
    assert ResponseAt(p3, 2, MAX_READING_AGE) == turn;
    assert Replay(p3, MAX_READING_AGE) == turn.state;
    assert ClocksAfter(p3, MAX_READING_AGE) == Clocks(completed, completed, completed);
    assert ResponseAt(events, 0, MAX_READING_AGE) == Response(START, None, 0, 0);
    assert ResponseAt(events, 1, MAX_READING_AGE) == Response(START, None, started, started);
    assert ResponseAt(events, 2, MAX_READING_AGE) == turn;
    assert ResponseAt(events, 3, MAX_READING_AGE) == Response(turn.state, Some(Up(1, frame, completed, true)), completed, completed);
  }

  /** Counted from reply to reply instead, an interval is always enough. */
  lemma RepliesSecondApartNeverRepeat(events: seq<Event>, i: nat, j: nat)
    requires BothServe(events, i, j, MAX_READING_AGE)
    requires ReplyAt(events, j, MAX_READING_AGE).at >= ReplyAt(events, i, MAX_READING_AGE).at + SCRAPE_INTERVAL
    ensures ReplyAt(events, i, MAX_READING_AGE).generation < ReplyAt(events, j, MAX_READING_AGE).generation
  {
    hide ResponseAt, OnClock;
    RepliesInOrder(events, i, j, MAX_READING_AGE);
    EventInRun(events, i, MAX_READING_AGE);
  }

  // ---- how old a reading may be the first time it is served ------------------------------------------

  /** The bound is on re-serving only: a frame nobody has been served may be any age the first time. */
  lemma FirstServeMayBeOld(age: nat)
    ensures var events := [Publish(Sampled(Frame("reading", 0)), 0), Turn(age, [], 0)];
      && OnClock(events, MAX_READING_AGE)
      && ResponseAt(events, 1, MAX_READING_AGE).reply == Some(Up(1, Frame("reading", 0), age, false))
  {
    var events := [Publish(Sampled(Frame("reading", 0)), 0), Turn(age, [], 0)];
    assert events[..1] == [events[0]] && events[..0] == [];
    assert events[..1][..0] == [];
    assert Replay(events[..1], MAX_READING_AGE) == Respond(START, events[0], MAX_READING_AGE).state;
  }

  /** The frame a turn would take at once: published since the last one served. */
  function Waiting(w: Worker): Option<Frame> {
    if w.published.outcome.Some? && w.published.outcome.value.Sampled? && w.published.generation > w.servedGeneration
    then Some(w.published.outcome.value.frame) else None
  }

  /** Older than `maxAge` when it was served. */
  predicate IsStale(reply: Reply, maxAge: nat) {
    reply.Up? && reply.at > reply.frame.completedAt + maxAge
  }

  /** The last outcome of the first wake-up that brings one: what ends a wait that has to wait. */
  function FirstNews(wakeUps: seq<WakeUp>): Option<Outcome> {
    if wakeUps == [] then None
    else
      var outcomes := wakeUps[0].outcomes;
      if outcomes == [] then FirstNews(wakeUps[1..]) else Some(outcomes[|outcomes| - 1])
  }

  lemma {:induction false} AwaitNews(w: Worker, wakeUps: seq<WakeUp>, now: nat, deadline: nat)
    requires Numbered(w) && Check(w).None?
    ensures Await(w, wakeUps, now, deadline).result.Served? <==> FirstNews(wakeUps).Some? && FirstNews(wakeUps).value.Sampled?
    decreases |wakeUps|
  {
    if wakeUps != [] {
      var outcomes := wakeUps[0].outcomes;
      PublishAllLast(w, outcomes);
      PublishAllNumbered(w, outcomes);
      if outcomes == [] {
        AwaitNews(w, wakeUps[1..], wakeUps[0].at, deadline);
      } else {
        PublishAllAhead(w, outcomes);
      }
    }
  }

  lemma {:induction false} PublishAllAhead(w: Worker, outcomes: seq<Outcome>)
    requires Numbered(w) && outcomes != []
    ensures PublishAll(w, outcomes).generation > w.servedGeneration
    decreases |outcomes|
  {
    if |outcomes| > 1 {
      PublishAllAhead(PublishOne(w, outcomes[0]), outcomes[1..]);
    } else {
      assert outcomes[1..] == [];
    }
  }

  /**
   Exactly when a turn, however long it waits, hands out a reading older than `maxAge`: when nothing fresh
   is cached and either an unserved frame was already waiting that is older than that by the reply; or there
   was neither a frame nor an error to take at once, the first news is a frame, and answering alone took
   longer. The wait itself never ages a reading.
   */
  lemma StaleServeExactly(s: State, e: Event, clocks: Clocks, maxAge: nat)
    requires e.Turn? && Timely(e, Respond(s, e, maxAge).settled, clocks)
    requires Numbered(s.worker) && CompletedBy(s.worker, clocks.source)
    ensures IsStale(Respond(s, e, maxAge).reply.value, maxAge) <==>
      && !IsFresh(s.cached, e.at, maxAge)
      && match Waiting(s.worker)
         case Some(frame) => frame.completedAt + maxAge < e.at + e.slack
         case None =>
           && (s.worker.published.outcome.Some? ==> !s.worker.published.outcome.value.Failed?)
           && FirstNews(e.wakeUps).Some? && FirstNews(e.wakeUps).value.Sampled?
           && maxAge < e.slack
    ensures Waiting(s.worker).Some? && !IsFresh(s.cached, e.at, maxAge) ==>
      Respond(s, e, maxAge).reply == Some(Up(s.worker.published.generation, Waiting(s.worker).value, e.at + e.slack, false))
  {
    AwaitTimes(s.worker, e.wakeUps, e.at, e.at + MAX_BUDGET);
    if Check(s.worker).None? {
      AwaitNews(s.worker, e.wakeUps, e.at, e.at + MAX_BUDGET);
    }
  }

  // ---- transition logging -------------------------------------------------------------------------

  /** How often a sequence of up/down states changes, the first state counting as a change. */
  function Changes(replies: seq<Reply>): nat {
    if replies == [] then 0
    else
      var n := |replies|;
      Changes(replies[..n - 1]) + (if n > 1 && replies[n - 2].Up? == replies[n - 1].Up? then 0 else 1)
  }

  /**
   A fresh cache implies the last logged state was up: an error is only logged once the cache is stale,
   both for the next glance and for the next turn.
   */
  ghost predicate LogInStep(s: State, replies: seq<Reply>, clocks: Clocks, maxAge: nat) {
    && s.logged == Changes(replies)
    && s.lastUp == (if replies == [] then None else Some(replies[|replies| - 1].Up?))
    && (s.cached.Some? ==> s.lastUp.Some?)
    && (s.cached.Some? && s.lastUp == Some(false) ==>
          AgeAt(s.cached.value.frame, clocks.lock) > maxAge && AgeAt(s.cached.value.frame, clocks.cache) > maxAge)
  }

  lemma RespondLogs(s: State, replies: seq<Reply>, clocks: Clocks, e: Event, maxAge: nat)
    requires LogInStep(s, replies, clocks, maxAge)
    requires Timely(e, Respond(s, e, maxAge).settled, clocks) && InTime(e, Respond(s, e, maxAge))
    ensures var response := Respond(s, e, maxAge);
      LogInStep(response.state, replies + Sent(response.reply), Advance(clocks, e, response), maxAge)
  {
    hide Await, WakesFrom;
    var reply := Respond(s, e, maxAge).reply;
    if reply.Some? {
      assert (replies + [reply.value])[..|replies|] == replies;
    } else {
      assert replies + [] == replies;
    }
  }

  /** Over any run the transition log holds one line per change in what was served, cached replies included. */
  lemma {:induction false} LoggedOncePerChange(events: seq<Event>, maxAge: nat)
    requires OnClock(events, maxAge)
    ensures Replay(events, maxAge).logged == Changes(Replies(events, maxAge))
    ensures LogInStep(Replay(events, maxAge), Replies(events, maxAge), ClocksAfter(events, maxAge), maxAge)
  {
    if events != [] {
      EventInRun(events, |events| - 1, maxAge);
      var front, last := RunStep(events, maxAge);
      LoggedOncePerChange(front, maxAge);
      RespondLogs(Replay(front, maxAge), Replies(front, maxAge), ClocksAfter(front, maxAge), last, maxAge);
      hide Respond, Changes, Replay, Replies, Advance;
    }
  }
}
