/** Read-through token aggregates (artpm_agent/core/token_monitor.py) over an expiring, possibly failing
    cache (artpm_agent/core/redis_cache.py), with any number of overlapping readers. */
module TokenCache {
  import opened TokenTable

  // ---------- Overlapping readers ----------

  /** How a call to the cache server turns out. */
  datatype Redis = Unavailable | Broken | Working

  /** Where a reader is. `began` is when it was called, `connected` whether it got a client; `lag` is how
      long the call took that computed the value returned, whether this one or the one that cached it. */
  datatype Reader =
    | Idle
    | Looking(q: Query, began: nat)
    | Missed(q: Query, began: nat, connected: bool)
    | Dated(q: Query, began: nat, connected: bool, day: nat)
    | Queried(q: Query, began: nat, connected: bool, value: Value)
    | Returned(q: Query, value: Value, at: nat, lag: nat)

  /** An entry, remembering how long the call took that computed it. */
  datatype Stored = Stored(cached: Cached, lag: nat)

  /** The table at a time: one instant of the run. */
  datatype Moment = Moment(time: nat, table: Table)

  /** `log` remembers every instant so far. */
  datatype World = World(now: nat, table: Table, cache: map<Query, Stored>, readers: seq<Reader>, log: seq<Moment>)

  /** Time passing, a row being tracked, an entry being dropped (by an invalidation, an eviction or a
      restart; an invalidation that fails is one that does not happen), a reader being called, and the
      next step of a reader. */
  datatype Event =
    | Tick(seconds: nat)
    | Insert(use: Use)
    | Drop(q: Query)
    | Call(who: nat, q: Query)
    | Go(who: nat, redis: Redis)

  function Live(w: World, q: Query): bool {
    q in w.cache && w.now < w.cache[q].cached.expires
  }

  /** A reader's step: what becomes of it and of the cache. */
  function Reading(agg: Aggregate, w: World, r: Reader, redis: Redis): (Reader, map<Query, Stored>) {
    match r
    case Looking(q, began) =>
      if redis.Working? && Live(w, q) then (Returned(q, w.cache[q].cached.value, w.now, w.cache[q].lag), w.cache)
      else (Missed(q, began, !redis.Unavailable?), w.cache)
    case Missed(q, began, connected) => (Dated(q, began, connected, Day(w.now)), w.cache)
    case Dated(q, began, connected, day) => (Queried(q, began, connected, agg(q, w.table, day)), w.cache)
    case Queried(q, began, connected, value) =>
      var lag := if w.now > began then w.now - began else 0;
      (Returned(q, value, w.now, lag),
       if connected && redis.Working? then w.cache[q := Stored(Cached(value, w.now + Ttl(q)), lag)] else w.cache)
    case _ => (r, w.cache)
  }

  function Act(agg: Aggregate, w: World, e: Event): (r: World)
    ensures |r.readers| == |w.readers|
  {
    match e
    case Tick(seconds) => w.(now := w.now + seconds)
    case Insert(use) => w.(table := w.table + [use])
    case Drop(q) => w.(cache := w.cache - {q})
    case Call(who, q) =>
      if who < |w.readers| && (w.readers[who].Idle? || w.readers[who].Returned?)
      then w.(readers := w.readers[who := Looking(q, w.now)]) else w
    case Go(who, redis) =>
      if who >= |w.readers| then w
      else
        var (reader, cache) := Reading(agg, w, w.readers[who], redis);
        w.(readers := w.readers[who := reader], cache := cache)
  }

  function Step(agg: Aggregate, w: World, e: Event): (r: World)
    ensures |r.readers| == |w.readers|
  {
    var next := Act(agg, w, e);
    next.(log := w.log + [Moment(next.now, next.table)])
  }

  function Run(agg: Aggregate, w: World, events: seq<Event>): (r: World)
    ensures |r.readers| == |w.readers|
    decreases |events|
  {
    if events == [] then w
    else Step(agg, Run(agg, w, events[..|events| - 1]), events[|events| - 1])
  }

  function Start(now: nat, table: Table, readers: nat): (w: World)
    ensures |w.readers| == readers
  {
    World(now, table, map[], seq(readers, i => Idle), [Moment(now, table)])
  }

  // ---------- What one call does ----------

  predicate MayBeCalled(w: World, who: nat) {
    who < |w.readers| && (w.readers[who].Idle? || w.readers[who].Returned?)
  }

  /** A call that finds a live entry returns it. */
  lemma LiveEntryReturned(agg: Aggregate, w: World, who: nat, q: Query)
    requires MayBeCalled(w, who) && q in w.cache && w.now < w.cache[q].cached.expires
    ensures var r := Step(agg, Step(agg, w, Call(who, q)), Go(who, Working));
      && r.readers == w.readers[who := Returned(q, w.cache[q].cached.value, w.now, w.cache[q].lag)]
      && r.table == w.table && r.cache == w.cache
  {
    assert w.readers[who := Looking(q, w.now)][who := Returned(q, w.cache[q].cached.value, w.now, w.cache[q].lag)]
        == w.readers[who := Returned(q, w.cache[q].cached.value, w.now, w.cache[q].lag)];
  }

  /** Any other call that nothing else interrupts returns the aggregate of the table, for today, and with a
      working cache leaves it there until its time to live has passed. */
  lemma OtherwiseComputed(agg: Aggregate, w: World, who: nat, q: Query, redis: Redis)
    requires MayBeCalled(w, who) && !(redis.Working? && q in w.cache && w.now < w.cache[q].cached.expires)
    ensures var asked := Step(agg, Step(agg, w, Call(who, q)), Go(who, redis));
      var r := Step(agg, Step(agg, Step(agg, asked, Go(who, redis)), Go(who, redis)), Go(who, redis));
      var value := agg(q, w.table, Day(w.now));
      && r.readers[who] == Returned(q, value, w.now, 0) && r.table == w.table
      && r.cache == if redis.Working? then w.cache[q := Stored(Cached(value, w.now + Ttl(q)), 0)] else w.cache
  {
  }

  // ---------- Bounded staleness ----------

  /** The value is the aggregate of the table at one instant, for the day of one no later than it, and
      neither lies before `oldest`. */
  ghost predicate Exact(agg: Aggregate, log: seq<Moment>, q: Query, value: Value, oldest: int) {
    exists i, j :: ExactAt(agg, log, q, value, oldest, i, j)
  }

  predicate ExactAt(agg: Aggregate, log: seq<Moment>, q: Query, value: Value, oldest: int, i: int, j: int) {
    && 0 <= i <= j < |log|
    && oldest <= log[i].time <= log[j].time
    && value == agg(q, log[j].table, Day(log[i].time))
  }

  predicate InProgress(r: Reader) {
    r.Looking? || r.Missed? || r.Dated? || r.Queried?
  }

  predicate LogInOrder(w: World) {
    && w.log != []
    && w.log[|w.log| - 1] == Moment(w.now, w.table)
    && forall i, j :: 0 <= i <= j < |w.log| ==> w.log[i].time <= w.log[j].time
  }

  ghost predicate DatedAt(log: seq<Moment>, day: nat, began: nat) {
    exists i :: 0 <= i < |log| && began <= log[i].time && day == Day(log[i].time)
  }

  ghost predicate ReaderTrue(agg: Aggregate, w: World, r: Reader) {
    && (InProgress(r) ==> r.began <= w.now)
    && (r.Dated? ==> DatedAt(w.log, r.day, r.began))
    && (r.Queried? ==> Exact(agg, w.log, r.q, r.value, r.began))
    && (r.Returned? ==> Exact(agg, w.log, r.q, r.value, r.at - Ttl(r.q) - r.lag))
  }

  /** The instant an entry vouches for. */
  function Oldest(e: Stored, q: Query): int {
    e.cached.expires - Ttl(q) - e.lag
  }

  ghost predicate EntryTrue(agg: Aggregate, w: World, q: Query)
    requires q in w.cache
  {
    Exact(agg, w.log, q, w.cache[q].cached.value, Oldest(w.cache[q], q))
  }

  ghost predicate Inv(agg: Aggregate, w: World) {
    && LogInOrder(w)
    && (forall p :: 0 <= p < |w.readers| ==> ReaderTrue(agg, w, w.readers[p]))
    && (forall q :: q in w.cache ==> EntryTrue(agg, w, q))
  }

  lemma ExactBy(agg: Aggregate, log: seq<Moment>, q: Query, value: Value, oldest: int, i: int, j: int)
    requires ExactAt(agg, log, q, value, oldest, i, j)
    ensures Exact(agg, log, q, value, oldest)
  {
  }

  lemma ExactStays(agg: Aggregate, log: seq<Moment>, m: Moment, q: Query, value: Value, oldest: int, older: int)
    requires Exact(agg, log, q, value, oldest) && older <= oldest
    ensures Exact(agg, log + [m], q, value, older)
  {
    var i, j :| ExactAt(agg, log, q, value, oldest, i, j);
    assert ExactAt(agg, log + [m], q, value, older, i, j);
  }

  lemma DatedStays(log: seq<Moment>, m: Moment, day: nat, began: nat)
    requires DatedAt(log, day, began)
    ensures DatedAt(log + [m], day, began)
  {
    var i :| 0 <= i < |log| && began <= log[i].time && day == Day(log[i].time);
    assert (log + [m])[i] == log[i];
  }

  /** What was true of an idle-standing reader stays true as the log grows and time passes. */
  lemma ReaderStaysTrue(agg: Aggregate, w: World, next: World, r: Reader)
    requires ReaderTrue(agg, w, r) && w.now <= next.now
    requires exists m :: next.log == w.log + [m]
    ensures ReaderTrue(agg, next, r)
  {
    var m :| next.log == w.log + [m];
    if r.Dated? {
      DatedStays(w.log, m, r.day, r.began);
    } else if r.Queried? {
      ExactStays(agg, w.log, m, r.q, r.value, r.began, r.began);
    } else if r.Returned? {
      ExactStays(agg, w.log, m, r.q, r.value, r.at - Ttl(r.q) - r.lag, r.at - Ttl(r.q) - r.lag);
    }
  }

  /** What a reader's own step makes of the reader, and of what it stores. */
  lemma ReadingTrue(agg: Aggregate, w: World, r: Reader, redis: Redis, m: Moment)
    requires Inv(agg, w) && ReaderTrue(agg, w, r)
    requires InProgress(r)
    ensures var (after, _) := Reading(agg, w, r, redis); ReaderTrue(agg, w.(log := w.log + [m]), after)
    ensures r.Queried? ==> r.began <= w.now && Exact(agg, w.log + [m], r.q, r.value, r.began)
  {
    hide Day, Ttl, Exact;
    var last := |w.log| - 1;
    var log := w.log + [m];
    assert log[last] == w.log[last];
    match r {
      case Looking(q, _) =>
        if redis.Working? && Live(w, q) {
          assert EntryTrue(agg, w, q);
          ExactStays(agg, w.log, m, q, w.cache[q].cached.value, Oldest(w.cache[q], q), w.now - Ttl(q) - w.cache[q].lag);
        }
      case Missed(q, began, _) =>
        assert DatedAt(log, Day(w.now), began);
      case Dated(q, began, _, day) =>
        var i :| 0 <= i < |w.log| && began <= w.log[i].time && day == Day(w.log[i].time);
        assert log[i] == w.log[i];
        ExactBy(agg, log, q, agg(q, w.table, day), began, i, last);
      case Queried(q, began, _, value) =>
        ExactStays(agg, w.log, m, q, value, began, began);
        ExactStays(agg, w.log, m, q, value, began, began - Ttl(q));
    }
  }

  lemma EntriesStayTrue(agg: Aggregate, w: World, m: Moment)
    requires Inv(agg, w)
    ensures forall q :: q in w.cache ==> EntryTrue(agg, w.(log := w.log + [m]), q)
  {
    forall q | q in w.cache ensures EntryTrue(agg, w.(log := w.log + [m]), q) {
      assert EntryTrue(agg, w, q);
      var oldest := Oldest(w.cache[q], q);
      ExactStays(agg, w.log, m, q, w.cache[q].cached.value, oldest, oldest);
    }
  }

  lemma ReaderStepTrue(agg: Aggregate, w: World, who: nat, redis: Redis)
    requires Inv(agg, w) && who < |w.readers|
    ensures var next := Step(agg, w, Go(who, redis)); ReaderTrue(agg, next, next.readers[who])
    ensures var next := Step(agg, w, Go(who, redis)); forall q :: q in next.cache ==> EntryTrue(agg, next, q)
  {
    hide Day, Exact, DatedAt, Ttl;
    var r := w.readers[who];
    var next := Step(agg, w, Go(who, redis));
    var m := Moment(next.now, next.table);
    assert ReaderTrue(agg, w, r);
    EntriesStayTrue(agg, w, m);
    if InProgress(r) {
      ReadingTrue(agg, w, r, redis, m);
    } else {
      ReaderStaysTrue(agg, w, next, r);
    }
    forall q | q in next.cache ensures EntryTrue(agg, next, q) {
      assert q in w.cache ==> EntryTrue(agg, w.(log := w.log + [m]), q);
    }
  }

  lemma StepKeepsInv(agg: Aggregate, w: World, e: Event)
    requires Inv(agg, w)
    ensures Inv(agg, Step(agg, w, e))
  {
    hide Exact, DatedAt, Reading, Ttl;
    var next := Step(agg, w, e);
    var m := Moment(next.now, next.table);
    assert next.log == w.log + [m];
    if e.Go? && e.who < |w.readers| {
      ReaderStepTrue(agg, w, e.who, e.redis);
    } else {
      forall q | q in next.cache ensures EntryTrue(agg, next, q) {
        assert EntryTrue(agg, w, q);
        var oldest := Oldest(w.cache[q], q);
        ExactStays(agg, w.log, m, q, w.cache[q].cached.value, oldest, oldest);
      }
    }
    forall p | 0 <= p < |next.readers| && !(e.Go? && e.who == p) ensures ReaderTrue(agg, next, next.readers[p]) {
      assert ReaderTrue(agg, w, w.readers[p]);
      if next.readers[p] == w.readers[p] {
        ReaderStaysTrue(agg, w, next, w.readers[p]);
      }
    }
  }

  lemma {:induction false} RunKeepsInv(agg: Aggregate, now: nat, table: Table, readers: nat, events: seq<Event>)
    ensures Inv(agg, Run(agg, Start(now, table, readers), events))
    decreases |events|
  {
    if events != [] {
      var w := Run(agg, Start(now, table, readers), events[..|events| - 1]);
      RunKeepsInv(agg, now, table, readers, events[..|events| - 1]);
      StepKeepsInv(agg, w, events[|events| - 1]);
    }
  }

  /** Bounded staleness, in every run of overlapping readers and writers, with a failing cache server,
      lost invalidations and processes that have no cache at all: a value returned at some time was the
      exact aggregate of the table at an instant no earlier than that time less the key's time to live
      (15 seconds for totals, 30 for reports) and the duration of the call that computed it. */
  lemma BoundedStaleness(agg: Aggregate, now: nat, table: Table, readers: nat, events: seq<Event>, p: nat)
    requires p < readers && Run(agg, Start(now, table, readers), events).readers[p].Returned?
    ensures var w := Run(agg, Start(now, table, readers), events); var r := w.readers[p];
      Exact(agg, w.log, r.q, r.value, r.at - (if r.q.Today? || r.q.Since? then 15 else 30) - r.lag)
  {
    RunKeepsInv(agg, now, table, readers, events);
    assert ReaderTrue(agg, Run(agg, Start(now, table, readers), events), Run(agg, Start(now, table, readers), events).readers[p]);
  }

  // ---------- The computing call's duration ----------

  /** No call in progress has been running longer than `longest`. */
  predicate Prompt(w: World, longest: nat) {
    forall p :: 0 <= p < |w.readers| && InProgress(w.readers[p]) ==> w.now <= w.readers[p].began + longest
  }

  predicate PromptRun(agg: Aggregate, w: World, events: seq<Event>, longest: nat)
    decreases |events|
  {
    && Prompt(Run(agg, w, events), longest)
    && (events != [] ==> PromptRun(agg, w, events[..|events| - 1], longest))
  }

  predicate LagsWithin(w: World, longest: nat) {
    && (forall p :: 0 <= p < |w.readers| && w.readers[p].Returned? ==> w.readers[p].lag <= longest)
    && (forall q :: q in w.cache ==> w.cache[q].lag <= longest)
  }

  lemma StepKeepsLags(agg: Aggregate, w: World, e: Event, longest: nat)
    requires LagsWithin(w, longest) && Prompt(w, longest)
    ensures LagsWithin(Step(agg, w, e), longest)
  {
    hide Day, Ttl;
    var next := Step(agg, w, e);
    if e.Go? && e.who < |w.readers| {
      var r := w.readers[e.who];
      assert InProgress(r) ==> w.now <= r.began + longest;
    }
    forall p | 0 <= p < |next.readers| && next.readers[p].Returned? ensures next.readers[p].lag <= longest {
      assert w.readers[p].Returned? ==> w.readers[p].lag <= longest;
    }
  }

  /** The duration a value is charged with is never longer than the longest call. */
  lemma {:induction false} LagIsACall(agg: Aggregate, now: nat, table: Table, readers: nat, events: seq<Event>, longest: nat)
    requires PromptRun(agg, Start(now, table, readers), events, longest)
    ensures LagsWithin(Run(agg, Start(now, table, readers), events), longest)
    decreases |events|
  {
    if events != [] {
      LagIsACall(agg, now, table, readers, events[..|events| - 1], longest);
      StepKeepsLags(agg, Run(agg, Start(now, table, readers), events[..|events| - 1]), events[|events| - 1], longest);
    }
  }
}
