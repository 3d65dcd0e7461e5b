/** The market-list cache of artpm_agent/core/mcp_client_stdio.py: one entry in memory per process, one
    document on disk that a new process may start from, and calls that overlap. */
module MarketCache {
  import opened Common

  /** A successful fetch: what it returned and when. */
  datatype Fetch = Fetch(payload: string, time: nat)

  /** The entry in memory: its payload, when it was put there, the fetch it came from, and whether it
      came by way of the disk. */
  datatype Entry = Entry(payload: string, since: nat, source: nat, fromDisk: bool)

  /** The document on disk. */
  datatype Doc = Doc(payload: string, savedAt: nat, source: nat)

  /** Where a `list_skills` call is. */
  datatype Call =
    | Idle
    | Hit(began: nat)
    | Asking(began: nat)
    | Fetched(began: nat, source: nat)
    | Saving(began: nat, source: nat)
    | Writing(began: nat, source: nat, doc: Doc)
    | Failed
    | Direct(source: nat)
    | Cached(payload: string, source: nat, fromDisk: bool, at: nat)
    | CachedEmpty

  /** `home[p]` is the process in which call slot `p` runs. */
  datatype World = World(now: nat, memory: seq<Option<Entry>>, disk: Option<Doc>, calls: seq<Call>, home: seq<nat>, fetches: seq<Fetch>)

  datatype Event =
    | Tick(seconds: nat)
    | Ask(call: nat, force: bool)
    | Go(call: nat, ok: bool, payload: string)
    | Close(process: nat)
    | Restart(process: nat, load: bool)

  predicate Shaped(w: World) {
    |w.home| == |w.calls| && forall p :: 0 <= p < |w.home| ==> w.home[p] < |w.memory|
  }

  function Mem(w: World, p: nat): Option<Entry>
    requires Shaped(w) && p < |w.calls|
  {
    w.memory[w.home[p]]
  }

  predicate Free(c: Call) {
    c.Idle? || c.Failed? || c.Direct? || c.Cached? || c.CachedEmpty?
  }

  /** `_market_cache_valid`. */
  predicate Fresh(mem: Option<Entry>, now: nat, ttl: nat) {
    mem.Some? && now < mem.value.since + ttl
  }

  /** What a new process starts from: the document on disk unless it has expired or is not read. */
  function Loaded(w: World, ttl: nat, load: bool): Option<Entry> {
    if load && w.disk.Some? && w.now < w.disk.value.savedAt + ttl
    then Some(Entry(w.disk.value.payload, w.now, w.disk.value.source, true))
    else None
  }

  /** The next step of a call. */
  function Advance(w: World, p: nat, ok: bool, payload: string): World
    requires Shaped(w) && p < |w.calls|
  {
    match w.calls[p]
    case Hit(_) =>
      w.(calls := w.calls[p := match Mem(w, p)
                               case None => CachedEmpty
                               case Some(e) => Cached(e.payload, e.source, e.fromDisk, w.now)])
    case Asking(began) =>
      if !ok then w.(calls := w.calls[p := Failed])
      else w.(fetches := w.fetches + [Fetch(payload, w.now)], calls := w.calls[p := Fetched(began, |w.fetches|)])
    case Fetched(began, k) =>
      if k >= |w.fetches| then w
      else w.(memory := w.memory[w.home[p] := Some(Entry(w.fetches[k].payload, w.now, k, false))],
              calls := w.calls[p := Saving(began, k)])
    case Saving(began, k) =>
      (match Mem(w, p)
       case None => w.(calls := w.calls[p := Direct(k)])
       case Some(e) => w.(calls := w.calls[p := Writing(began, k, Doc(e.payload, w.now, e.source))]))
    case Writing(_, k, doc) =>
      w.(disk := if ok then Some(doc) else w.disk, calls := w.calls[p := Direct(k)])
    case _ => w
  }

  function Step(w: World, ttl: nat, e: Event): (r: World)
    requires Shaped(w)
    ensures Shaped(r) && |r.calls| == |w.calls| && |r.memory| == |w.memory| && r.home == w.home
  {
    match e
    case Tick(seconds) => w.(now := w.now + seconds)
    case Ask(p, force) =>
      if p < |w.calls| && Free(w.calls[p])
      then w.(calls := w.calls[p := if !force && Fresh(Mem(w, p), w.now, ttl) then Hit(w.now) else Asking(w.now)])
      else w
    case Go(p, ok, payload) => if p < |w.calls| then Advance(w, p, ok, payload) else w
    case Close(c) => if c < |w.memory| then w.(memory := w.memory[c := None]) else w
    case Restart(c, load) =>
      if c >= |w.memory| then w
      else w.(memory := w.memory[c := Loaded(w, ttl, load)],
              calls := seq(|w.calls|, p requires 0 <= p < |w.calls| => if w.home[p] == c then Idle else w.calls[p]))
  }

  function Run(w: World, ttl: nat, events: seq<Event>): (r: World)
    requires Shaped(w)
    ensures Shaped(r) && |r.calls| == |w.calls| && |r.memory| == |w.memory| && r.home == w.home
    decreases |events|
  {
    if events == [] then w
    else Step(Run(w, ttl, events[..|events| - 1]), ttl, events[|events| - 1])
  }

  /** Processes that have just started with no document on disk. */
  function Start(processes: nat, home: seq<nat>): (w: World)
    requires forall p :: 0 <= p < |home| ==> home[p] < processes
    ensures Shaped(w) && |w.calls| == |home| && |w.memory| == processes
  {
    World(0, seq(processes, c => None), None, seq(|home|, p => Idle), home, [])
  }

  // ---------- How old an answer can be ----------

  predicate Running(c: Call) {
    !Free(c)
  }

  /** No call lasts longer than `longest`. */
  predicate Prompt(w: World, longest: nat) {
    forall p :: 0 <= p < |w.calls| && Running(w.calls[p]) ==> w.now <= w.calls[p].began + longest
  }

  predicate PromptRun(w: World, ttl: nat, events: seq<Event>, longest: nat)
    requires Shaped(w)
    decreases |events|
  {
    && Prompt(Run(w, ttl, events), longest)
    && (events != [] ==> PromptRun(w, ttl, events[..|events| - 1], longest))
  }

  /** `payload` is what fetch `source` returned, no earlier than `oldest`. */
  predicate From(fetches: seq<Fetch>, payload: string, source: nat, oldest: int) {
    source < |fetches| && fetches[source].payload == payload && oldest <= fetches[source].time
  }

  predicate EntryTrue(w: World, e: Entry, ttl: nat, longest: nat) {
    && e.since <= w.now
    && From(w.fetches, e.payload, e.source, if e.fromDisk then e.since - ttl - 2 * longest + 1 else e.since - longest)
  }

  predicate DocTrue(w: World, d: Doc, longest: nat) {
    d.savedAt <= w.now && From(w.fetches, d.payload, d.source, d.savedAt - 2 * longest)
  }

  predicate CallTrue(w: World, p: nat, ttl: nat, longest: nat)
    requires Shaped(w) && p < |w.calls|
  {
    var mem := Mem(w, p);
    match w.calls[p]
    case Hit(began) => began <= w.now && ttl > 0 && (mem.Some? ==> began < mem.value.since + ttl)
    case Asking(began) => began <= w.now
    case Fetched(began, k) => began <= w.now && k < |w.fetches| && began <= w.fetches[k].time
    case Saving(began, k) =>
      began <= w.now && k < |w.fetches| && (mem.Some? ==> !mem.value.fromDisk && began <= mem.value.since)
    case Writing(began, k, doc) => began <= w.now && k < |w.fetches| && DocTrue(w, doc, longest)
    case Direct(k) => k < |w.fetches|
    case Cached(payload, k, fromDisk, at) =>
      From(w.fetches, payload, k, if fromDisk then at - 2 * ttl - 3 * longest + 2 else at - ttl - 2 * longest + 1)
    case _ => true
  }

  ghost predicate Inv(w: World, ttl: nat, longest: nat) {
    && Shaped(w)
    && (forall c :: 0 <= c < |w.memory| && w.memory[c].Some? ==> EntryTrue(w, w.memory[c].value, ttl, longest))
    && (w.disk.Some? ==> DocTrue(w, w.disk.value, longest))
    && (forall p :: 0 <= p < |w.calls| ==> CallTrue(w, p, ttl, longest))
  }

  lemma StartKeepsInv(processes: nat, home: seq<nat>, ttl: nat, longest: nat)
    requires forall p :: 0 <= p < |home| ==> home[p] < processes
    ensures Inv(Start(processes, home), ttl, longest)
  {
  }

  /** Steps of the clock and of the processes. */
  lemma OutsideKeepsInv(w: World, ttl: nat, longest: nat, e: Event)
    requires Inv(w, ttl, longest) && !e.Go?
    ensures Inv(Step(w, ttl, e), ttl, longest)
  {
    var r := Step(w, ttl, e);
    forall p | 0 <= p < |r.calls| ensures CallTrue(r, p, ttl, longest) {
      assert CallTrue(w, p, ttl, longest);
    }
    forall c | 0 <= c < |r.memory| && r.memory[c].Some? ensures EntryTrue(r, r.memory[c].value, ttl, longest) {
      assert w.memory[c].Some? ==> EntryTrue(w, w.memory[c].value, ttl, longest);
    }
  }

  /** Steps of a call, what they make of the memory and the disk. */
  lemma AdvanceStores(w: World, ttl: nat, longest: nat, p: nat, ok: bool, payload: string)
    requires Inv(w, ttl, longest) && Prompt(w, longest) && p < |w.calls|
    ensures var r := Advance(w, p, ok, payload);
      && (forall c :: 0 <= c < |r.memory| && r.memory[c].Some? ==> EntryTrue(r, r.memory[c].value, ttl, longest))
      && (r.disk.Some? ==> DocTrue(r, r.disk.value, longest))
  {
    var r := Advance(w, p, ok, payload);
    assert CallTrue(w, p, ttl, longest);
    forall c | 0 <= c < |r.memory| && r.memory[c].Some? ensures EntryTrue(r, r.memory[c].value, ttl, longest) {
      assert w.memory[c].Some? ==> EntryTrue(w, w.memory[c].value, ttl, longest);
    }
  }

  lemma AdvanceHit(w: World, ttl: nat, longest: nat, p: nat, ok: bool, payload: string)
    requires Inv(w, ttl, longest) && Prompt(w, longest) && p < |w.calls| && w.calls[p].Hit?
    ensures CallTrue(Step(w, ttl, Go(p, ok, payload)), p, ttl, longest)
  {
    assert CallTrue(w, p, ttl, longest);
    var mem := Mem(w, p);
    assert mem.Some? ==> EntryTrue(w, mem.value, ttl, longest);
  }

  lemma AdvanceOwnCall(w: World, ttl: nat, longest: nat, p: nat, ok: bool, payload: string)
    requires Inv(w, ttl, longest) && Prompt(w, longest) && p < |w.calls|
    ensures CallTrue(Step(w, ttl, Go(p, ok, payload)), p, ttl, longest)
  {
    if w.calls[p].Hit? {
      AdvanceHit(w, ttl, longest, p, ok, payload);
    } else {
      hide Inv;
      OneCallTrue(w, ttl, longest, p);
    }
  }

  lemma OneCallTrue(w: World, ttl: nat, longest: nat, p: nat)
    requires Inv(w, ttl, longest) && p < |w.calls|
    ensures Shaped(w) && CallTrue(w, p, ttl, longest)
    ensures Mem(w, p).Some? ==> EntryTrue(w, Mem(w, p).value, ttl, longest)
  {
  }

  lemma AdvanceOtherCall(w: World, ttl: nat, longest: nat, p: nat, ok: bool, payload: string, q: nat)
    requires Inv(w, ttl, longest) && Prompt(w, longest) && p < |w.calls| && q < |w.calls| && q != p
    ensures CallTrue(Step(w, ttl, Go(p, ok, payload)), q, ttl, longest)
  {
    assert CallTrue(w, q, ttl, longest);
    AdvanceEffect(w, p, ok, payload);
    hide Advance, Prompt, EntryTrue;
    assert Step(w, ttl, Go(p, ok, payload)) == Advance(w, p, ok, payload);
  }

  /** What a call's step can do to the rest of the world. */
  lemma AdvanceEffect(w: World, p: nat, ok: bool, payload: string)
    requires Shaped(w) && p < |w.calls|
    ensures var r := Advance(w, p, ok, payload);
      && r.now == w.now && r.home == w.home && |r.calls| == |w.calls| && |r.memory| == |w.memory|
      && (r.fetches == w.fetches || r.fetches == w.fetches + [Fetch(payload, w.now)])
      && (forall c :: 0 <= c < |w.memory| && r.memory[c] != w.memory[c] ==>
        r.memory[c].Some? && r.memory[c].value.since == w.now && !r.memory[c].value.fromDisk)
      && (forall q :: 0 <= q < |w.calls| && q != p ==> r.calls[q] == w.calls[q])
  {
  }

  lemma StepKeepsInv(w: World, ttl: nat, longest: nat, e: Event)
    requires Inv(w, ttl, longest) && Prompt(w, longest)
    ensures Inv(Step(w, ttl, e), ttl, longest)
  {
    hide CallTrue, EntryTrue, DocTrue, Prompt;
    if e.Go? && e.call < |w.calls| {
      AdvanceStores(w, ttl, longest, e.call, e.ok, e.payload);
      forall q | 0 <= q < |w.calls| ensures CallTrue(Step(w, ttl, e), q, ttl, longest) {
        if q == e.call {
          AdvanceOwnCall(w, ttl, longest, q, e.ok, e.payload);
        } else {
          AdvanceOtherCall(w, ttl, longest, e.call, e.ok, e.payload, q);
        }
      }
    } else if !e.Go? {
      OutsideKeepsInv(w, ttl, longest, e);
    }
  }

  lemma {:induction false} RunKeepsInv(w: World, ttl: nat, longest: nat, events: seq<Event>)
    requires Inv(w, ttl, longest) && PromptRun(w, ttl, events, longest)
    ensures Inv(Run(w, ttl, events), ttl, longest)
    decreases |events|
  {
    if events != [] {
      RunKeepsInv(w, ttl, longest, events[..|events| - 1]);
      StepKeepsInv(Run(w, ttl, events[..|events| - 1]), ttl, longest, events[|events| - 1]);
    }
  }

  /** Over any sequence of restarts, disk loads, failed saves, closes and overlapping calls: a cached
      answer is what some successful fetch returned, less than one time to live ago if the process
      fetched it itself and less than two if it came from the disk, give or take the durations of the
      calls involved. */
  lemma CachedAnswersAreRecent(processes: nat, home: seq<nat>, ttl: nat, longest: nat, events: seq<Event>, p: nat)
    requires forall q :: 0 <= q < |home| ==> home[q] < processes
    requires PromptRun(Start(processes, home), ttl, events, longest)
    requires p < |home| && Run(Start(processes, home), ttl, events).calls[p].Cached?
    ensures var w := Run(Start(processes, home), ttl, events); var c := w.calls[p];
      && c.source < |w.fetches| && c.payload == w.fetches[c.source].payload
      && c.at - w.fetches[c.source].time < (if c.fromDisk then 2 * ttl + 3 * longest else ttl + 2 * longest)
  {
    var w := Start(processes, home);
    StartKeepsInv(processes, home, ttl, longest);
    RunKeepsInv(w, ttl, longest, events);
    assert CallTrue(Run(w, ttl, events), p, ttl, longest);
  }

  lemma RunExtends(w: World, ttl: nat, events: seq<Event>, v: World, e: Event, next: World)
    requires Shaped(w) && PromptRun(w, ttl, events, 0) && Run(w, ttl, events) == v
    requires Shaped(v) && Step(v, ttl, e) == next && Prompt(next, 0)
    ensures Run(w, ttl, events + [e]) == next && PromptRun(w, ttl, events + [e], 0)
  {
    assert (events + [e])[..|events + [e]| - 1] == events;
  }

  /** The document on disk carries the time it was saved, but a new process counts from the moment it
      loads it: even when every call is instantaneous, an answer can be two seconds short of two times
      to live old. */
  lemma DiskRestartsTheClock(ttl: nat, payload: string)
    requires ttl >= 2
    ensures exists events: seq<Event> ::
      && PromptRun(Start(1, [0]), ttl, events, 0)
      && var w := Run(Start(1, [0]), ttl, events);
        w.calls == [Cached(payload, 0, true, 2 * ttl - 2)] && w.fetches == [Fetch(payload, 0)]
  {
    hide Run, PromptRun;
    var e5 := FetchedAndSaved(ttl, payload);
    var w, go := Start(1, [0]), Go(0, true, "");
    var later := 2 * ttl - 2;
    var doc, f := Some(Doc(payload, 0, 0)), [Fetch(payload, 0)];
    var own, loaded := Some(Entry(payload, 0, 0, false)), Some(Entry(payload, ttl - 1, 0, true));
    var w5 := World(0, [own], doc, [Direct(0)], [0], f);
    var w6 := World(ttl - 1, [own], doc, [Direct(0)], [0], f);
    RunExtends(w, ttl, e5, w5, Tick(ttl - 1), w6);
    var e6 := e5 + [Tick(ttl - 1)];
    var w7 := World(ttl - 1, [loaded], doc, [Idle], [0], f);
    RunExtends(w, ttl, e6, w6, Restart(0, true), w7);
    var e7 := e6 + [Restart(0, true)];
    var w8 := World(later, [loaded], doc, [Idle], [0], f);
    RunExtends(w, ttl, e7, w7, Tick(ttl - 1), w8);
    var e8 := e7 + [Tick(ttl - 1)];
    var w9 := World(later, [loaded], doc, [Hit(later)], [0], f);
    RunExtends(w, ttl, e8, w8, Ask(0, false), w9);
    var e9 := e8 + [Ask(0, false)];
    RunExtends(w, ttl, e9, w9, go, World(later, [loaded], doc, [Cached(payload, 0, true, later)], [0], f));
  }

  lemma FetchedAndSaved(ttl: nat, payload: string) returns (events: seq<Event>)
    ensures PromptRun(Start(1, [0]), ttl, events, 0)
    ensures Run(Start(1, [0]), ttl, events) ==
      World(0, [Some(Entry(payload, 0, 0, false))], Some(Doc(payload, 0, 0)), [Direct(0)], [0], [Fetch(payload, 0)])
  {
    hide Run, PromptRun;
    var w, go := Start(1, [0]), Go(0, true, payload);
    var doc, f := Doc(payload, 0, 0), [Fetch(payload, 0)];
    var own := Some(Entry(payload, 0, 0, false));
    events := FetchedPayload(ttl, payload);
    var w2 := World(0, [None], None, [Fetched(0, 0)], [0], f);
    var w3 := World(0, [own], None, [Saving(0, 0)], [0], f);
    RunExtends(w, ttl, events, w2, go, w3);
    events := events + [go];
    var w4 := World(0, [own], None, [Writing(0, 0, doc)], [0], f);
    RunExtends(w, ttl, events, w3, go, w4);
    events := events + [go];
    RunExtends(w, ttl, events, w4, go, World(0, [own], Some(doc), [Direct(0)], [0], f));
    events := events + [go];
  }

  lemma FetchedPayload(ttl: nat, payload: string) returns (events: seq<Event>)
    ensures PromptRun(Start(1, [0]), ttl, events, 0)
    ensures Run(Start(1, [0]), ttl, events) == World(0, [None], None, [Fetched(0, 0)], [0], [Fetch(payload, 0)])
  {
    var w := Start(1, [0]);
    assert w == World(0, [None], None, [Idle], [0], []);
    assert Run(w, ttl, []) == w && PromptRun(w, ttl, [], 0);
    hide Run, PromptRun;
    var w1 := World(0, [None], None, [Asking(0)], [0], []);
    RunExtends(w, ttl, [], w, Ask(0, false), w1);
    events := [] + [Ask(0, false)];
    RunExtends(w, ttl, events, w1, Go(0, true, payload), World(0, [None], None, [Fetched(0, 0)], [0], [Fetch(payload, 0)]));
    events := events + [Go(0, true, payload)];
  }

  // ---------- Answers that no fetch returned ----------

  predicate HitsHaveMemory(w: World)
    requires Shaped(w)
  {
    forall p :: 0 <= p < |w.calls| ==> (w.calls[p].Hit? ==> Mem(w, p).Some?) && !w.calls[p].CachedEmpty?
  }

  /** A process that is not closed never gives the empty answer, which no fetch returned. */
  lemma {:induction false} NoCloseNoEmptyAnswer(w: World, ttl: nat, events: seq<Event>)
    requires Shaped(w) && HitsHaveMemory(w)
    requires forall n :: 0 <= n < |events| ==> !events[n].Close?
    ensures HitsHaveMemory(Run(w, ttl, events))
    decreases |events|
  {
    if events != [] {
      NoCloseNoEmptyAnswer(w, ttl, events[..|events| - 1]);
      var v := Run(w, ttl, events[..|events| - 1]);
      var r := Run(w, ttl, events);
      forall p | 0 <= p < |r.calls| ensures (r.calls[p].Hit? ==> Mem(r, p).Some?) && !r.calls[p].CachedEmpty? {
        assert (v.calls[p].Hit? ==> Mem(v, p).Some?) && !v.calls[p].CachedEmpty?;
      }
    }
  }

  /** The event puts what was fetched into the memory of process `c`. */
  predicate Stores(v: World, e: Event, c: nat)
    requires Shaped(v)
  {
    && e.Go? && e.call < |v.calls| && v.home[e.call] == c
    && v.calls[e.call].Fetched? && v.calls[e.call].source < |v.fetches|
  }

  /** A `close` of process `c` falls into the run, and nothing is stored in its memory after it. */
  predicate ClosedLast(w: World, ttl: nat, events: seq<Event>, c: nat)
    requires Shaped(w)
  {
    exists i :: 0 <= i < |events| && events[i] == Close(c) && NoStoreAfter(w, ttl, events, c, i)
  }

  predicate NoStoreAfter(w: World, ttl: nat, events: seq<Event>, c: nat, i: nat)
    requires Shaped(w)
  {
    forall j :: i < j < |events| ==> !Stores(Run(w, ttl, events[..j]), events[j], c)
  }

  lemma ClosedLastSteps(w: World, ttl: nat, events: seq<Event>, c: nat)
    requires Shaped(w) && events != []
    ensures var shorter, e := events[..|events| - 1], events[|events| - 1];
      ClosedLast(w, ttl, events, c) <==> e == Close(c) || (ClosedLast(w, ttl, shorter, c) && !Stores(Run(w, ttl, shorter), e, c))
  {
    hide Run, Stores;
    var n := |events| - 1;
    var shorter, e := events[..n], events[n];
    assert forall j :: 0 <= j <= n ==> shorter[..j] == events[..j];
    if ClosedLast(w, ttl, events, c) && e != Close(c) {
      var i :| 0 <= i < |events| && events[i] == Close(c) && NoStoreAfter(w, ttl, events, c, i);
      assert shorter[i] == Close(c) && NoStoreAfter(w, ttl, shorter, c, i);
    }
    if ClosedLast(w, ttl, shorter, c) && !Stores(Run(w, ttl, shorter), e, c) {
      var i :| 0 <= i < |shorter| && shorter[i] == Close(c) && NoStoreAfter(w, ttl, shorter, c, i);
      assert events[i] == Close(c) && NoStoreAfter(w, ttl, events, c, i);
    }
    if e == Close(c) {
      assert NoStoreAfter(w, ttl, events, c, n);
    }
  }

  /** Neither the call itself goes on nor is its process restarted. */
  predicate Undisturbed(w: World, events: seq<Event>, p: nat)
    requires Shaped(w) && p < |w.calls|
  {
    forall n :: 0 <= n < |events| ==> !(events[n].Go? && events[n].call == p) && !(events[n].Restart? && events[n].process == w.home[p])
  }

  lemma OneEventEmpties(v: World, ttl: nat, e: Event, p: nat)
    requires Shaped(v) && p < |v.calls| && v.calls[p].Hit?
    requires !(e.Go? && e.call == p) && !(e.Restart? && e.process == v.home[p])
    ensures var r := Step(v, ttl, e);
      && r.calls[p] == v.calls[p]
      && (Mem(r, p) == None <==> e == Close(v.home[p]) || (Mem(v, p) == None && !Stores(v, e, v.home[p])))
  {
  }

  lemma {:induction false} EmptiedExactly(w: World, ttl: nat, events: seq<Event>, p: nat)
    requires Shaped(w) && p < |w.calls| && w.calls[p].Hit? && Mem(w, p).Some? && Undisturbed(w, events, p)
    ensures var v := Run(w, ttl, events);
      v.calls[p] == w.calls[p] && (Mem(v, p) == None <==> ClosedLast(w, ttl, events, w.home[p]))
    decreases |events|
  {
    if events != [] {
      var shorter, e := events[..|events| - 1], events[|events| - 1];
      EmptiedExactly(w, ttl, shorter, p);
      ClosedLastSteps(w, ttl, events, w.home[p]);
      OneEventEmpties(Run(w, ttl, shorter), ttl, e, p);
      hide Step, ClosedLast, Stores;
    }
  }

  /** A call finds a fresh entry, other things happen, and then it reads: it answers from nothing exactly if a
      `close` of its process, and no later store into that process's memory, fell between. */
  lemma EmptyAnswerExactly(w: World, ttl: nat, p: nat, events: seq<Event>, ok: bool, payload: string)
    requires Shaped(w) && p < |w.calls| && Free(w.calls[p]) && Fresh(Mem(w, p), w.now, ttl) && Undisturbed(w, events, p)
    ensures var checked := Step(w, ttl, Ask(p, false));
      && checked.calls[p].Hit?
      && (Step(Run(checked, ttl, events), ttl, Go(p, ok, payload)).calls[p].CachedEmpty? <==>
        ClosedLast(checked, ttl, events, w.home[p]))
  {
    var checked := Step(w, ttl, Ask(p, false));
    EmptiedExactly(checked, ttl, events, p);
    hide ClosedLast, Run;
  }

  predicate Since(w: World, k: nat, began: nat) {
    k < |w.fetches| && began <= w.fetches[k].time
  }

  /** The call fetches: its answer, if it gets one, is what a fetch made since `began` returned. */
  predicate Fetching(w: World, p: nat, began: nat)
    requires Shaped(w) && p < |w.calls|
  {
    match w.calls[p]
    case Asking(b) => b == began <= w.now
    case Fetched(_, k) => Since(w, k, began)
    case Saving(_, k) => Since(w, k, began)
    case Writing(_, k, _) => Since(w, k, began)
    case Direct(k) => Since(w, k, began)
    case Failed => true
    case _ => false
  }

  predicate AskedOnce(w: World, events: seq<Event>, p: nat)
    requires Shaped(w) && p < |w.calls|
  {
    forall n :: 0 <= n < |events| ==> !(events[n].Ask? && events[n].call == p) && !(events[n].Restart? && events[n].process == w.home[p])
  }

  lemma OneEventFetches(v: World, ttl: nat, e: Event, p: nat, began: nat)
    requires Shaped(v) && p < |v.calls| && Fetching(v, p, began)
    requires !(e.Ask? && e.call == p) && !(e.Restart? && e.process == v.home[p])
    ensures Fetching(Step(v, ttl, e), p, began)
  {
  }

  lemma {:induction false} RunFetches(w: World, ttl: nat, events: seq<Event>, p: nat, began: nat)
    requires Shaped(w) && p < |w.calls| && Fetching(w, p, began) && AskedOnce(w, events, p)
    ensures Fetching(Run(w, ttl, events), p, began)
    decreases |events|
  {
    if events != [] {
      RunFetches(w, ttl, events[..|events| - 1], p, began);
      OneEventFetches(Run(w, ttl, events[..|events| - 1]), ttl, events[|events| - 1], p, began);
      hide Fetching, Step;
    }
  }

  /** A call answers from the cache exactly if it was not forced and found a fresh entry: one that is in memory
      and younger than the time to live. Any other call fetches, whatever else happens, and never returns a
      cached or an empty answer; what it returns was fetched since it was asked. */
  lemma OnlyUnforcedHitsCache(w: World, ttl: nat, p: nat, force: bool, events: seq<Event>)
    requires Shaped(w) && p < |w.calls| && Free(w.calls[p]) && AskedOnce(w, events, p)
    ensures var asked := Step(w, ttl, Ask(p, force));
      && (asked.calls[p].Hit? <==> !force && Mem(w, p).Some? && w.now - Mem(w, p).value.since < ttl)
      && (!asked.calls[p].Hit? ==> Fetching(Run(asked, ttl, events), p, w.now))
  {
    var asked := Step(w, ttl, Ask(p, force));
    if !asked.calls[p].Hit? {
      RunFetches(asked, ttl, events, p, w.now);
    }
  }

  /** A run in which that happens: the call finds a fresh entry, `close` clears it, and the call answers
      from nothing although a fetch has succeeded. */
  lemma CloseFallsBetween(ttl: nat, payload: string)
    requires ttl > 0
    ensures exists events: seq<Event> ::
      && PromptRun(Start(1, [0]), ttl, events, 0)
      && var w := Run(Start(1, [0]), ttl, events);
        w.calls == [CachedEmpty] && w.fetches == [Fetch(payload, 0)]
  {
    hide Run, PromptRun;
    var w, go := Start(1, [0]), Go(0, true, "");
    var doc, f := Some(Doc(payload, 0, 0)), [Fetch(payload, 0)];
    var own := Some(Entry(payload, 0, 0, false));
    var e5 := FetchedAndSaved(ttl, payload);
    var w5 := World(0, [own], doc, [Direct(0)], [0], f);
    var w6 := World(0, [own], doc, [Hit(0)], [0], f);
    RunExtends(w, ttl, e5, w5, Ask(0, false), w6);
    var e6 := e5 + [Ask(0, false)];
    var w7 := World(0, [None], doc, [Hit(0)], [0], f);
    RunExtends(w, ttl, e6, w6, Close(0), w7);
    RunExtends(w, ttl, e6 + [Close(0)], w7, go, World(0, [None], doc, [CachedEmpty], [0], f));
  }
}
