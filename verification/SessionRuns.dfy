/** Runs of the session lifecycle that show where its guarantees end. */
module SessionRuns {
  import opened SessionLifecycle

  ghost predicate Leads(s: State, s': State) {
    exists events :: Run(s, events) == Next(s')
  }

  lemma LeadsNowhere(s: State)
    ensures Leads(s, s)
  {
    assert Run(s, []) == Next(s);
  }

  lemma LeadsOn(s: State, m: State, e: Event)
    requires Leads(s, m) && Step(m, e).Next?
    ensures Leads(s, Step(m, e).state)
  {
    var events :| Run(s, events) == Next(m);
    assert (events + [e])[..|events + [e]| - 1] == events;
    assert Run(s, events + [e]) == Step(m, e);
  }

  lemma LeadsFurther(s: State, m: State, s': State)
    requires Leads(s, m) && Leads(m, s')
    ensures Leads(s, s')
  {
    var a :| Run(s, a) == Next(m);
    var b :| Run(m, b) == Next(s');
    RunAppend(s, a, b);
  }

  /** `s` with new fields and one thread moved. */
  function CallerAt(s: State, c: nat, sh: Shared, me: Caller): State
    requires c < |s.callers|
  {
    State(sh, s.callers[c := me], s.workers)
  }

  function WorkerAt(s: State, w: nat, sh: Shared, worker: Worker): State
    requires w < |s.workers|
  {
    State(sh, s.callers, s.workers[w := worker])
  }

  lemma CallerMoves(s: State, c: nat, sh: Shared, me: Caller, k: Choice)
    requires c < |s.callers| && Leads(s, CallerAt(s, c, sh, me))
    requires me.pc.Restart? ==> !me.pc.restart.CreateThread? && !me.pc.restart.StartThread?
    ensures var m := CallerStep(sh, me, c, AliveWorkers(s.workers), |s.workers|, k);
      m.Moves? ==> Leads(s, CallerAt(s, c, m.sh, m.me))
  {
    var m := CallerStep(sh, me, c, AliveWorkers(s.workers), |s.workers|, k);
    if m.Moves? {
      LeadsOn(s, CallerAt(s, c, sh, me), Client(c, k));
      assert s.callers[c := me][c := m.me] == s.callers[c := m.me];
    }
  }

  lemma WorkerMoves(s: State, w: nat, sh: Shared, worker: Worker, k: Choice)
    requires w < |s.workers| && Leads(s, WorkerAt(s, w, sh, worker))
    ensures var m := WorkerStep(sh, worker.pc, w, k);
      m.Turns? ==>
        Leads(s, WorkerAt(s, w, m.sh, Worker(m.pc, if worker.pc.BumpGeneration? then m.sh.generation else worker.gen)))
  {
    var m := WorkerStep(sh, worker.pc, w, k);
    if m.Turns? {
      LeadsOn(s, WorkerAt(s, w, sh, worker), Background(w, k));
      var next := Worker(m.pc, if worker.pc.BumpGeneration? then m.sh.generation else worker.gen);
      assert s.workers[w := worker][w := next] == s.workers[w := next];
    }
  }

  lemma Stand(s: State)
    ensures Leads(s, s)
    ensures forall c: nat | c < |s.callers| :: Leads(s, CallerAt(s, c, s.sh, s.callers[c]))
    ensures forall w: nat | w < |s.workers| :: Leads(s, WorkerAt(s, w, s.sh, s.workers[w]))
  {
    LeadsNowhere(s);
    assert forall c: nat | c < |s.callers| :: CallerAt(s, c, s.sh, s.callers[c]) == s;
    assert forall w: nat | w < |s.workers| :: WorkerAt(s, w, s.sh, s.workers[w]) == s;
  }

  /** A started worker gets its connection ... */
  lemma WorkerReachesPublish(s: State, w: nat)
    requires w < |s.workers| && s.workers[w].pc.PublishLoop? && s.sh.lock.Free?
    ensures Leads(s, WorkerAt(s, w, s.sh.(loop := Is(w), lock := ByWorker(w), session := Is(w)),
                              Worker(BumpGeneration, s.workers[w].gen)))
  {
    hide Leads, Run;
    var g, sh := s.workers[w].gen, s.sh.(loop := Is(w));
    Stand(s);
    WorkerMoves(s, w, s.sh, s.workers[w], Go);
    WorkerMoves(s, w, sh, Worker(Connecting, g), Succeed);
    WorkerMoves(s, w, sh, Worker(EnterPublish, g), Go);
  }

  /** ... and serves. */
  lemma WorkerConnects(s: State, w: nat)
    requires w < |s.workers| && s.workers[w].pc.PublishLoop? && s.sh.lock.Free?
    ensures Leads(s, WorkerAt(s, w,
                              s.sh.(loop := Is(w), session := Is(w), generation := s.sh.generation + 1, broken := false, ready := true),
                              Worker(Serving, s.sh.generation + 1)))
  {
    hide Leads, Run;
    var n := s.sh.generation + 1;
    var sh2 := s.sh.(loop := Is(w), lock := ByWorker(w), session := Is(w));
    WorkerReachesPublish(s, w);
    WorkerMoves(s, w, sh2, Worker(BumpGeneration, s.workers[w].gen), Go);
    WorkerMoves(s, w, sh2.(generation := n), Worker(ClearBroken, n), Go);
    WorkerMoves(s, w, sh2.(generation := n, broken := false), Worker(RaiseReady, n), Go);
  }

  /** A serving worker loses its transport. */
  lemma WorkerBreaks(s: State, w: nat)
    requires w < |s.workers| && s.workers[w].pc.Serving? && !s.sh.shutdown
    ensures Leads(s, WorkerAt(s, w, s.sh.(connectError := true, broken := true), Worker(ClearSession, s.workers[w].gen)))
  {
    hide Leads, Run;
    var g, sh1 := s.workers[w].gen, s.sh.(connectError := true);
    Stand(s);
    WorkerMoves(s, w, s.sh, s.workers[w], Fail);
    WorkerMoves(s, w, s.sh, Worker(Caught, g), Go);
    WorkerMoves(s, w, s.sh, Worker(RecordError, g), Go);
    WorkerMoves(s, w, sh1, Worker(RecordBroken, g), Go);
  }

  /** A worker at its final cleanup clears the session ... */
  lemma WorkerClears(s: State, w: nat)
    requires w < |s.workers| && s.workers[w].pc.ClearSession?
    ensures Leads(s, WorkerAt(s, w, s.sh.(session := Nobody, ready := false), Worker(EnterForget, s.workers[w].gen)))
  {
    hide Leads, Run;
    var g, sh1 := s.workers[w].gen, s.sh.(session := Nobody);
    var sh2 := sh1.(ready := false);
    Stand(s);
    WorkerMoves(s, w, s.sh, s.workers[w], Go);
    WorkerMoves(s, w, sh1, Worker(ClearReady, g), Go);
    WorkerMoves(s, w, sh2, Worker(DrainLoop, g), Go);
  }

  /** ... and forgets itself. */
  lemma WorkerForgets(s: State, w: nat)
    requires w < |s.workers| && s.workers[w].pc.EnterForget? && s.sh.lock.Free?
    requires s.sh.thread == Is(w) && s.sh.loop == Is(w)
    ensures Leads(s, WorkerAt(s, w, s.sh.(loop := Nobody, thread := Nobody), Worker(Exiting, s.workers[w].gen)))
  {
    hide Leads, Run;
    var g, sh1 := s.workers[w].gen, s.sh.(lock := ByWorker(w), loop := Nobody);
    Stand(s);
    WorkerMoves(s, w, s.sh, s.workers[w], Go);
    WorkerMoves(s, w, sh1, Worker(ForgetSelf, g), Go);
  }

  /** No lock is held and no worker is running. */
  ghost predicate Rests(s: State) {
    s.sh.lifecycle.Nobody? && s.sh.lock.Free? && !IsAlive(AliveWorkers(s.workers), s.sh.thread)
  }

  /** An unforced caller behind the lifecycle lock finds no worker ... */
  lemma ReachesDecision(s: State, c: nat)
    requires c < |s.callers| && s.callers[c].pc == Request(EnterLifecycle) && s.callers[c].op.Ensure? && !s.callers[c].force
    requires s.sh.lifecycle.Nobody? && s.sh.lock.Free? && !s.sh.ready
    ensures Leads(s, CallerAt(s, c, s.sh.(lifecycle := Is(c), lock := ByCaller(c)), s.callers[c].(pc := Restart(DecideStart))))
  {
    hide Leads, Run;
    var me := s.callers[c];
    var sh1 := s.sh.(lifecycle := Is(c));
    Stand(s);
    CallerMoves(s, c, s.sh, me, Go);
    CallerMoves(s, c, sh1, me.(pc := Between(EnterStop)), Go);
    CallerMoves(s, c, sh1.(lock := ByCaller(c)), me.(pc := Stop(RecheckReady)), Go);
    CallerMoves(s, c, sh1, me.(pc := Between(EnterRestart)), Go);
  }

  /** ... decides to create one ... */
  lemma ReachesCreate(s: State, c: nat)
    requires c < |s.callers| && s.callers[c].pc == Request(EnterLifecycle) && s.callers[c].op.Ensure? && !s.callers[c].force
    requires Rests(s) && !s.sh.ready
    ensures Leads(s, CallerAt(s, c, s.sh.(lifecycle := Is(c), lock := ByCaller(c), broken := false, connectError := false),
                              s.callers[c].(pc := Restart(CreateThread))))
  {
    hide Leads, Run;
    var me, sh := s.callers[c], s.sh.(lifecycle := Is(c), lock := ByCaller(c));
    ReachesDecision(s, c);
    CallerMoves(s, c, sh, me.(pc := Restart(DecideStart)), Go);
    CallerMoves(s, c, sh, me.(pc := Restart(ResetErrors)), Go);
  }

  /** ... and starts a worker, whoever decided to ... */
  lemma CreatesWorker(s: State, c: nat, sh: Shared, me: Caller)
    requires c < |s.callers| && Leads(s, CallerAt(s, c, sh, me))
    requires me.pc == Restart(CreateThread) && me.op.Ensure?
    ensures Leads(s, State(sh.(thread := Is(|s.workers|), lifecycle := Nobody, lock := Free),
                           s.callers[c := me.(pc := Await(AwaitReady))],
                           s.workers + [Worker(PublishLoop, 0)]))
  {
    hide Leads, Run;
    var n := |s.workers|;
    var s1 := CallerAt(s, c, sh, me);
    LeadsOn(s, s1, Client(c, Go));
    var s2 := State(sh.(thread := Is(n)), s.callers[c := me.(pc := Restart(StartThread))], s.workers + [Worker(Created, 0)]);
    assert s1.callers[c := me.(pc := Restart(StartThread))] == s2.callers;
    LeadsOn(s, s2, Client(c, Go));
    assert s2.callers[c := me.(pc := Await(AwaitReady))] == s.callers[c := me.(pc := Await(AwaitReady))];
    assert s2.workers[n := Worker(PublishLoop, 0)] == s.workers + [Worker(PublishLoop, 0)];
  }

  lemma StartsWorker(s: State, c: nat)
    requires c < |s.callers| && s.callers[c].pc == Request(EnterLifecycle) && s.callers[c].op.Ensure? && !s.callers[c].force
    requires Rests(s) && !s.sh.ready
    ensures Leads(s, State(s.sh.(thread := Is(|s.workers|), broken := false, connectError := false),
                           s.callers[c := s.callers[c].(pc := Await(AwaitReady))],
                           s.workers + [Worker(PublishLoop, 0)]))
  {
    ReachesCreate(s, c);
    CreatesWorker(s, c, s.sh.(lifecycle := Is(c), lock := ByCaller(c), broken := false, connectError := false),
                  s.callers[c].(pc := Restart(CreateThread)));
  }

  /** ... which connects. */
  lemma StartsAndConnects(s: State, c: nat)
    requires c < |s.callers| && s.callers[c].pc == Request(EnterLifecycle) && s.callers[c].op.Ensure? && !s.callers[c].force
    requires Rests(s) && !s.sh.ready
    ensures var n, g := |s.workers|, s.sh.generation + 1;
      Leads(s, State(s.sh.(thread := Is(n), loop := Is(n), session := Is(n), generation := g,
                           broken := false, connectError := false, ready := true),
                     s.callers[c := s.callers[c].(pc := Await(AwaitReady))],
                     s.workers + [Worker(Serving, g)]))
  {
    var n, g := |s.workers|, s.sh.generation + 1;
    StartsWorker(s, c);
    var s3 := State(s.sh.(thread := Is(n), broken := false, connectError := false),
                    s.callers[c := s.callers[c].(pc := Await(AwaitReady))], s.workers + [Worker(PublishLoop, 0)]);
    WorkerConnects(s3, n);
    assert s3.workers[n := Worker(Serving, g)] == s.workers + [Worker(Serving, g)];
    LeadsFurther(s, s3, WorkerAt(s3, n, s3.sh.(loop := Is(n), session := Is(n), generation := g, broken := false, ready := true), Worker(Serving, g)));
  }

  /** An idle caller's new request gets as far as the lifecycle lock. */
  lemma RequestReachesLock(s: State, c: nat)
    requires c < |s.callers| && s.callers[c].pc == Request(Idle) && !s.sh.shutdown && !s.sh.ready
    ensures Leads(s, CallerAt(s, c, s.sh, s.callers[c].(pc := Request(EnterLifecycle), op := Ensure, force := false, retry := false)))
  {
    hide Leads, Run;
    var me := s.callers[c].(op := Ensure, force := false, retry := false);
    Stand(s);
    CallerMoves(s, c, s.sh, s.callers[c], BeginCall);
    CallerMoves(s, c, s.sh, me.(pc := Request(CheckShutdown)), Go);
    CallerMoves(s, c, s.sh, me.(pc := Request(CheckReady)), Go);
  }

  /** A caller whose worker is ready sends its request, which fails. */
  lemma RequestBreaks(s: State, c: nat)
    requires c < |s.callers| && s.callers[c].pc == Await(AwaitReady)
    requires !s.callers[c].retry && s.sh.ready && s.sh.lock.Free?
    ensures Leads(s, CallerAt(s, c, s.sh, s.callers[c].(pc := Call(EnterFailure), g := s.sh.generation)))
  {
    hide Leads, Run;
    var me := s.callers[c].(g := s.sh.generation);
    Stand(s);
    CallerMoves(s, c, s.sh, s.callers[c], Go);
    CallerMoves(s, c, s.sh, s.callers[c].(pc := Call(EnterReadGeneration)), Go);
    CallerMoves(s, c, s.sh, me.(pc := Call(Calling)), Fail);
  }

  /** A failure under the current generation is marked, and a forced reconnect begins. */
  lemma FailureForces(s: State, c: nat)
    requires c < |s.callers| && s.callers[c].pc == Call(EnterFailure) && s.callers[c].g == s.sh.generation
    requires s.callers[c].op.Ensure? && s.sh.lock.Free? && !s.sh.shutdown
    ensures Leads(s, CallerAt(s, c, s.sh.(broken := true, session := Nobody),
                              s.callers[c].(pc := Request(EnterLifecycle), force := true, retry := true)))
  {
    hide Leads, Run;
    var me, sh := s.callers[c], s.sh.(broken := true, session := Nobody);
    Stand(s);
    CallerMoves(s, c, s.sh, me, Go);
    CallerMoves(s, c, s.sh.(lock := ByCaller(c)), me.(pc := Guard(MarkFailure)), Go);
    CallerMoves(s, c, sh, me.(pc := Request(CheckShutdown), force := true, retry := true), Go);
  }

  /** A forced caller behind the lifecycle lock is about to drop whatever session there is. */
  lemma ForcedReachesDrop(s: State, c: nat)
    requires c < |s.callers| && s.callers[c].pc == Request(EnterLifecycle) && s.callers[c].op.Ensure? && s.callers[c].force
    requires s.sh.lifecycle.Nobody? && s.sh.lock.Free?
    ensures Leads(s, CallerAt(s, c, s.sh.(lifecycle := Is(c), lock := ByCaller(c), shutdown := true),
                              s.callers[c].(pc := Stop(DropRefs))))
  {
    hide Leads, Run;
    var me, sh := s.callers[c], s.sh.(lifecycle := Is(c));
    Stand(s);
    CallerMoves(s, c, s.sh, me, Go);
    CallerMoves(s, c, sh, me.(pc := Between(EnterStop)), Go);
    CallerMoves(s, c, sh.(lock := ByCaller(c)), me.(pc := Stop(RaiseShutdown)), Go);
  }

  lemma ReachesFurther(s: State, s': State)
    requires Reachable(s) && Leads(s, s')
    ensures Reachable(s')
  {
    var events :| Run(s, events) == Next(s');
    RunFromReachable(s, events);
  }

  // ---------------------------------------------------------------- what a forced reconnect finds

  /** Caller 0 has just failed under the current generation 1; caller 1 is idle. */
  function JustFailed(): State {
    var a := Start(2).callers[0];
    State(Shared(Nobody, Free, Is(0), Is(0), Is(0), true, false, false, false, 1),
          [a.(pc := Call(EnterFailure), g := 1), a], [Worker(Serving, 1)])
  }

  lemma FailureReachable()
    ensures Reachable(JustFailed())
  {
    var s0 := Start(2);
    assert Run(s0, []) == Next(s0);
    RequestReachesLock(s0, 0);
    var a, b := s0.callers[0], s0.callers[1];
    var s1 := CallerAt(s0, 0, s0.sh, a.(pc := Request(EnterLifecycle)));
    ReachesFurther(s0, s1);
    StartsAndConnects(s1, 0);
    var sh2 := s1.sh.(thread := Is(0), loop := Is(0), session := Is(0), generation := 1, ready := true);
    var s2 := State(sh2, [a.(pc := Await(AwaitReady)), b], [Worker(Serving, 1)]);
    assert s1.callers[0 := a.(pc := Await(AwaitReady))] == s2.callers;
    ReachesFurther(s1, s2);
    RequestBreaks(s2, 0);
    assert s2.callers[0 := a.(pc := Call(EnterFailure), g := 1)] == JustFailed().callers;
    ReachesFurther(s2, JustFailed());
  }

  /** Caller 0 after marking that failure, on its way to a forced reconnect. */
  function Forcing(): Caller {
    Start(1).callers[0].(pc := Request(EnterLifecycle), g := 1, force := true, retry := true)
  }

  function Marked(): State {
    State(JustFailed().sh.(broken := true, session := Nobody), [Forcing(), Start(1).callers[0]], [Worker(Serving, 1)])
  }

  lemma FailureLeadsToMark()
    ensures Leads(JustFailed(), Marked())
  {
    FailureForces(JustFailed(), 0);
    assert JustFailed().callers[0 := Forcing()] == Marked().callers;
  }

  /** Its worker dies and forgets itself. */
  function Orphaned(): State {
    State(Shared(Nobody, Free, Nobody, Nobody, Nobody, false, false, true, true, 1),
          [Forcing(), Start(1).callers[0]], [Worker(Exiting, 1)])
  }

  lemma MarkLeadsToOrphan()
    ensures Leads(Marked(), Orphaned())
  {
    var s3 := Marked();
    WorkerBreaks(s3, 0);
    var s4 := WorkerAt(s3, 0, s3.sh.(connectError := true), Worker(ClearSession, 1));
    WorkerClears(s4, 0);
    var s5 := WorkerAt(s4, 0, s4.sh.(ready := false), Worker(EnterForget, 1));
    LeadsFurther(s3, s4, s5);
    WorkerForgets(s5, 0);
    assert s5.workers[0 := Worker(Exiting, 1)] == Orphaned().workers;
    LeadsFurther(s3, s5, Orphaned());
  }

  /** Caller 1, without forcing anything, starts the next worker, which connects. */
  function Replaced(): State {
    var b := Start(1).callers[0].(pc := Await(AwaitReady));
    State(Shared(Nobody, Free, Is(1), Is(1), Is(1), true, false, false, false, 2),
          [Forcing(), b], [Worker(Exiting, 1), Worker(Serving, 2)])
  }

  lemma OrphanLeadsToReplacement()
    ensures Leads(Orphaned(), Replaced())
  {
    var s5 := Orphaned();
    RequestReachesLock(s5, 1);
    var b6 := Start(1).callers[0].(pc := Request(EnterLifecycle));
    var s6 := State(s5.sh, [Forcing(), b6], s5.workers);
    assert s5.callers[1 := b6] == s6.callers;
    StartsAndConnects(s6, 1);
    assert s6.callers[1 := b6.(pc := Await(AwaitReady))] == Replaced().callers;
    LeadsFurther(s5, s6, Replaced());
  }

  /** The hypotheses of `ForcedDropHitsNothingOrNewer`: caller 0 fails in `s` under the current generation
      and is about to drop the session in `s'`. */
  ghost predicate FailsThenDrops(s: State, s': State) {
    && Reachable(s) && |s.callers| == |s'.callers| == 2
    && s.callers[0].pc == Call(EnterFailure) && s.callers[0].g == s.sh.generation
    && Leads(s, s') && s'.callers[0].pc == Stop(DropRefs)
  }

  lemma MarkedThenDrops(s: State)
    requires Leads(Marked(), s) && |s.callers| == 2 && s.callers[0] == Forcing()
    requires s.sh.lifecycle.Nobody? && s.sh.lock.Free?
    ensures FailsThenDrops(JustFailed(), CallerAt(s, 0, s.sh.(lifecycle := Is(0), lock := ByCaller(0), shutdown := true),
                                                  Forcing().(pc := Stop(DropRefs))))
  {
    FailureReachable();
    FailureLeadsToMark();
    LeadsFurther(JustFailed(), Marked(), s);
    ForcedReachesDrop(s, 0);
    LeadsFurther(JustFailed(), s, CallerAt(s, 0, s.sh.(lifecycle := Is(0), lock := ByCaller(0), shutdown := true),
                                           Forcing().(pc := Stop(DropRefs))));
  }

  /** Undisturbed, a forced reconnect finds its generation unchanged and nothing left to drop. */
  lemma ForcedStopFindsNothing()
    ensures exists s, s' :: FailsThenDrops(s, s') && s'.sh.generation == s.callers[0].g && s'.sh.session.Nobody?
  {
    LeadsNowhere(Marked());
    MarkedThenDrops(Marked());
  }

  /** Caller `c` is not forcing a reconnect at any point of the run. */
  ghost predicate NeverForced(s: State, events: seq<Event>, c: nat)
    decreases |events|
  {
    && Run(s, events).Next?
    && c < |Run(s, events).state.callers| && !Run(s, events).state.callers[c].force
    && (events != [] ==> NeverForced(s, events[..|events| - 1], c))
  }

  /** A caller that has not sent a request has nothing to force a reconnect for. */
  predicate Unsent(me: Caller) {
    me.g == 0 ==>
      && !me.force && !(me.pc.Guard? && me.pc.guard.MarkFailure?)
      && (me.pc.Call? ==> me.pc.call.EnterReadGeneration?)
  }

  predicate StaysUnsent(me: Caller, m: CallerMove) {
    m.Moves? ==> Unsent(m.me) && (m.me.g == 0 ==> me.g == 0)
  }

  lemma CallerStaysUnsent(sh: Shared, me: Caller, c: nat, alive: set<nat>, newId: nat, k: Choice)
    requires Unsent(me) && sh.generation > 0
    ensures StaysUnsent(me, CallerStep(sh, me, c, alive, newId, k))
  {
    hide RequestStep, CallStep, AwaitStep, GuardStep, BetweenStep, StopStep, RestartStep, StaysUnsent;
    if me.pc.Between? {
      BetweenStaysUnsent(sh, me, c, alive, k);
    } else if HoldsLifecycle(me.pc) {
      SectionStaysUnsent(sh, me, alive, newId);
    } else if me.pc.Request? {
      RequestStaysUnsent(sh, me, c, k);
    } else if me.pc.Await? {
      AwaitStaysUnsent(sh, me, c, alive, k);
    } else {
      SendingStaysUnsent(sh, me, c, k);
    }
  }

  lemma BetweenStaysUnsent(sh: Shared, me: Caller, c: nat, alive: set<nat>, k: Choice)
    requires Unsent(me) && me.pc.Between?
    ensures StaysUnsent(me, BetweenStep(sh, me, c, alive, k))
  {
    hide LocksFollow, FieldsFollow;
  }

  lemma SectionStaysUnsent(sh: Shared, me: Caller, alive: set<nat>, newId: nat)
    requires Unsent(me)
    ensures me.pc.Stop? ==> StaysUnsent(me, StopStep(sh, me, alive))
    ensures me.pc.Restart? ==> StaysUnsent(me, RestartStep(sh, me, alive, newId))
  {
    hide StopStep, LocksFollow, FieldsFollow;
    if me.pc.Stop? {
      SectionKeepsRequest(sh, me, alive);
    }
  }

  lemma RequestStaysUnsent(sh: Shared, me: Caller, c: nat, k: Choice)
    requires Unsent(me) && me.pc.Request?
    ensures StaysUnsent(me, RequestStep(sh, me, c, k))
  {
    hide OutsideEffect;
  }

  lemma AwaitStaysUnsent(sh: Shared, me: Caller, c: nat, alive: set<nat>, k: Choice)
    requires Unsent(me) && me.pc.Await?
    ensures StaysUnsent(me, AwaitStep(sh, me, c, alive, k))
  {
    hide AwaitStep, OutsideEffect;
    WaitingKeepsRequest(sh, me, c, alive, k);
  }

  /** Waiting does not change what the request is, and ends it or has it sent. */
  lemma WaitingKeepsRequest(sh: Shared, me: Caller, c: nat, alive: set<nat>, k: Choice)
    requires me.pc.Await?
    ensures var m := AwaitStep(sh, me, c, alive, k); m.Moves? ==>
      && m.me.op == me.op && m.me.force == me.force && m.me.g == me.g
      && (m.me.pc.Await? || m.me.pc == Guard(PollBroken) || m.me.pc == Call(EnterReadGeneration) || m.me.pc == Request(Idle))
  {
    hide OutsideEffect, IsAlive;
  }

  lemma SendingStaysUnsent(sh: Shared, me: Caller, c: nat, k: Choice)
    requires Unsent(me) && sh.generation > 0
    ensures me.pc.Call? ==> StaysUnsent(me, CallStep(sh, me, c, k))
    ensures me.pc.Guard? ==> StaysUnsent(me, GuardStep(sh, me))
  {
    hide OutsideEffect;
  }

  /** A caller that ends a run without having sent any request has not forced anything on the way. */
  lemma {:induction false} UnsentNeverForced(s: State, events: seq<Event>, c: nat)
    requires c < |s.callers| && Unsent(s.callers[c]) && s.sh.generation > 0 && Run(s, events).Next?
    ensures var s' := Run(s, events).state;
      && c < |s'.callers| && Unsent(s'.callers[c]) && s'.sh.generation > 0
      && (s'.callers[c].g == 0 ==> s.callers[c].g == 0 && NeverForced(s, events, c))
    decreases |events|
  {
    GenerationGrowsByConnects(s, events);
    if events != [] {
      var before, e := events[..|events| - 1], events[|events| - 1];
      var last := Run(s, before).state;
      UnsentNeverForced(s, before, c);
      if e.Client? && e.c == c {
        CallerStaysUnsent(last.sh, last.callers[c], c, AliveWorkers(last.workers), |last.workers|, e.choice);
      }
      hide CallerStep, WorkerStep;
    }
  }

  /** The session it drops can be a newer one, even when it is the only forced reconnect of the run: its own
      worker dies, an unforced caller starts the next one, and then the forced caller gets the lifecycle
      lock. */
  lemma ForcedStopMayHitNewerSession()
    ensures exists s, s', events ::
      FailsThenDrops(s, s') && SessionNewerThan(s', s.callers[0].g) && Run(s, events) == Next(s') && NeverForced(s, events, 1)
  {
    MarkLeadsToOrphan();
    OrphanLeadsToReplacement();
    LeadsFurther(Marked(), Orphaned(), Replaced());
    MarkedThenDrops(Replaced());
    var s' := CallerAt(Replaced(), 0, Replaced().sh.(lifecycle := Is(0), lock := ByCaller(0), shutdown := true),
                       Forcing().(pc := Stop(DropRefs)));
    assert SessionNewerThan(s', JustFailed().callers[0].g);
    var events :| Run(JustFailed(), events) == Next(s');
    UnsentNeverForced(JustFailed(), events, 1);
  }

  /** A changed generation alone does not mean that there is a newer session to lose: it may be gone
      again. */
  lemma NewerSessionMayBeGone()
    ensures exists s, s' :: FailsThenDrops(s, s') && s'.sh.generation > s.callers[0].g && s'.sh.session.Nobody?
  {
    MarkLeadsToOrphan();
    OrphanLeadsToReplacement();
    LeadsFurther(Marked(), Orphaned(), Replaced());
    var s7 := Replaced();
    WorkerBreaks(s7, 1);
    var s8 := WorkerAt(s7, 1, s7.sh.(connectError := true, broken := true), Worker(ClearSession, 2));
    WorkerClears(s8, 1);
    var s9 := WorkerAt(s8, 1, s8.sh.(session := Nobody, ready := false), Worker(EnterForget, 2));
    LeadsFurther(s7, s8, s9);
    LeadsFurther(Marked(), s7, s9);
    MarkedThenDrops(s9);
  }

  /** A forced caller drops what there is and goes to join the worker. */
  lemma ForcedReachesJoin(s: State, c: nat)
    requires c < |s.callers| && s.callers[c].pc == Request(EnterLifecycle) && s.callers[c].op.Ensure? && s.callers[c].force
    requires s.sh.lifecycle.Nobody? && s.sh.lock.Free?
    ensures Leads(s, CallerAt(s, c, s.sh.(lifecycle := Is(c), shutdown := true, session := Nobody, loop := Nobody, ready := false),
                              s.callers[c].(pc := Between(Join), t := s.sh.thread)))
  {
    hide Leads, Run;
    var me, sh := s.callers[c], s.sh.(lifecycle := Is(c), lock := ByCaller(c), shutdown := true);
    ForcedReachesDrop(s, c);
    CallerMoves(s, c, sh, me.(pc := Stop(DropRefs)), Go);
    CallerMoves(s, c, sh.(session := Nobody, loop := Nobody), me.(pc := Stop(LowerReady), t := s.sh.thread), Go);
  }

  /** Nobody asked for `close`, yet the client is closed: a forced reconnect gave up joining its worker. */
  ghost predicate ClosedByTimeout(s: State) {
    Closed(s) && (forall c :: 0 <= c < |s.callers| ==> s.callers[c].op.Ensure?) && |s.workers| == 1 && Unfinished(s.workers[0].pc)
  }

  lemma JoinTimeoutClosesClient()
    ensures exists s :: Reachable(s) && ClosedByTimeout(s)
  {
    hide JustFailed, Marked, TimedOut, ClosedByTimeout, Leads, Reachable;
    FailureReachable();
    FailureLeadsToMark();
    GivesUpJoining();
    TimedOutIsClosed();
    ReachesFurther(JustFailed(), Marked());
    ReachesFurther(Marked(), TimedOut());
  }

  /** The caller has left again; the worker has not finished. */
  function TimedOut(): State {
    State(Shared(Nobody, Free, Is(0), Nobody, Nobody, false, true, true, false, 1),
          [Forcing().(t := Is(0), pc := Request(Idle)), Start(1).callers[0]], [Worker(Serving, 1)])
  }

  lemma TimedOutIsClosed()
    ensures ClosedByTimeout(TimedOut())
  {
  }

  lemma GivesUpJoining()
    ensures Leads(Marked(), TimedOut())
  {
    hide RequestStep, CallStep, AwaitStep, GuardStep, StopStep, RestartStep;
    var s := Marked();
    ForcedReachesJoin(s, 0);
    var me, sh := Forcing().(t := Is(0)), s.sh.(lifecycle := Is(0), shutdown := true, loop := Nobody, ready := false);
    CallerMoves(s, 0, sh, me.(pc := Between(Join)), Expire);
    CallerMoves(s, 0, sh, me.(pc := Between(EnterJoinFailed)), Go);
    assert CallerAt(s, 0, sh.(lifecycle := Nobody), me.(pc := Request(Idle))) == TimedOut();
  }

  // ---------------------------------------------------------------- a call in flight past `close`

  /** No thread, no session, and no lock held. */
  predicate Quiet(sh: Shared) {
    sh.lifecycle.Nobody? && sh.lock.Free? && sh.thread.Nobody? && sh.loop.Nobody? && sh.session.Nobody? && !sh.ready
  }

  /** A quiet client is asked to close ... */
  lemma EntersClose(s: State, c: nat)
    requires c < |s.callers| && s.callers[c].pc == Request(Idle) && Quiet(s.sh)
    ensures Leads(s, CallerAt(s, c, s.sh.(lifecycle := Is(c), lock := ByCaller(c)),
                              s.callers[c].(pc := Stop(RaiseShutdown), op := Close)))
  {
    hide Leads, Run;
    var me := s.callers[c].(op := Close);
    Stand(s);
    CallerMoves(s, c, s.sh, s.callers[c], BeginClose);
    CallerMoves(s, c, s.sh, me.(pc := Request(EnterLifecycle)), Go);
    CallerMoves(s, c, s.sh.(lifecycle := Is(c)), me.(pc := Between(EnterStop)), Go);
  }

  /** ... requests shutdown ... */
  lemma StopsQuiet(s: State, c: nat)
    requires c < |s.callers| && s.callers[c].pc == Request(Idle) && Quiet(s.sh)
    ensures Leads(s, CallerAt(s, c, s.sh.(lifecycle := Is(c), shutdown := true),
                              s.callers[c].(pc := Between(Join), op := Close, t := Nobody)))
  {
    hide Leads, Run, RequestStep, CallStep, AwaitStep, GuardStep, BetweenStep, RestartStep;
    var me := s.callers[c].(op := Close);
    var sh := s.sh.(lifecycle := Is(c), lock := ByCaller(c));
    EntersClose(s, c);
    CallerMoves(s, c, sh, me.(pc := Stop(RaiseShutdown)), Go);
    CallerMoves(s, c, sh.(shutdown := true), me.(pc := Stop(DropRefs)), Go);
    CallerMoves(s, c, sh.(shutdown := true), me.(pc := Stop(LowerReady), t := Nobody), Go);
  }

  /** ... joins nobody ... */
  lemma JoinsNobody(s: State, c: nat)
    requires c < |s.callers| && s.callers[c].pc == Request(Idle) && Quiet(s.sh)
    ensures Leads(s, CallerAt(s, c, s.sh.(lifecycle := Is(c), lock := ByCaller(c), shutdown := true),
                              s.callers[c].(pc := Stop(ForgetRefs), op := Close, t := Nobody)))
  {
    hide Leads, Run, RequestStep, CallStep, AwaitStep, GuardStep, StopStep, RestartStep;
    var me := s.callers[c].(op := Close, t := Nobody);
    var sh := s.sh.(lifecycle := Is(c), shutdown := true);
    StopsQuiet(s, c);
    CallerMoves(s, c, sh, me.(pc := Between(Join)), Go);
    CallerMoves(s, c, sh, me.(pc := Between(EnterRestart)), Go);
  }

  /** ... and is closed. */
  lemma ClosesQuiet(s: State, c: nat)
    requires c < |s.callers| && s.callers[c].pc == Request(Idle) && Quiet(s.sh)
    ensures Leads(s, CallerAt(s, c, s.sh.(shutdown := true), s.callers[c].(op := Close, t := Nobody)))
  {
    hide Leads, Run, RequestStep, CallStep, AwaitStep, GuardStep, BetweenStep, RestartStep;
    JoinsNobody(s, c);
    CallerMoves(s, c, s.sh.(lifecycle := Is(c), lock := ByCaller(c), shutdown := true),
                s.callers[c].(pc := Stop(ForgetRefs), op := Close, t := Nobody), Go);
  }

  /** A forced caller with no worker running passes the join ... */
  lemma ForcedPassesJoin(s: State, c: nat)
    requires c < |s.callers| && s.callers[c].pc == Request(EnterLifecycle) && s.callers[c].op.Ensure? && s.callers[c].force
    requires Rests(s)
    ensures Leads(s, CallerAt(s, c, Dropped(s.sh).(lifecycle := Is(c), lock := ByCaller(c), shutdown := true),
                              s.callers[c].(pc := Restart(LowerShutdown), t := s.sh.thread)))
  {
    hide Leads, Run, RequestStep, CallStep, AwaitStep, GuardStep, StopStep, RestartStep;
    var me := s.callers[c].(t := s.sh.thread);
    var sh := Dropped(s.sh).(lifecycle := Is(c), shutdown := true);
    ForcedReachesJoin(s, c);
    CallerMoves(s, c, sh, me.(pc := Between(Join)), Go);
    CallerMoves(s, c, sh, me.(pc := Between(EnterRestart)), Go);
  }

  /** The fields after `_stop_background_locked`. */
  function Dropped(sh: Shared): Shared {
    sh.(session := Nobody, loop := Nobody, ready := false)
  }

  /** ... lowers `_shutdown`, whoever raised it ... */
  lemma ForcedReopens(s: State, c: nat)
    requires c < |s.callers| && s.callers[c].pc == Request(EnterLifecycle) && s.callers[c].op.Ensure? && s.callers[c].force
    requires Rests(s)
    ensures Leads(s, CallerAt(s, c, Dropped(s.sh).(lifecycle := Is(c), lock := ByCaller(c), shutdown := false, thread := Nobody),
                              s.callers[c].(pc := Restart(DecideStart), t := s.sh.thread)))
  {
    hide Leads, Run, RequestStep, CallStep, AwaitStep, GuardStep, BetweenStep, StopStep;
    var me := s.callers[c].(t := s.sh.thread);
    var open := Dropped(s.sh).(lifecycle := Is(c), lock := ByCaller(c), shutdown := false);
    ForcedPassesJoin(s, c);
    CallerMoves(s, c, open.(shutdown := true), me.(pc := Restart(LowerShutdown)), Go);
    CallerMoves(s, c, open, me.(pc := Restart(LowerReadyAgain)), Go);
    CallerMoves(s, c, open, me.(pc := Restart(ForgetDead)), Go);
  }

  /** ... and decides to start. */
  lemma ForcedReachesCreate(s: State, c: nat)
    requires c < |s.callers| && s.callers[c].pc == Request(EnterLifecycle) && s.callers[c].op.Ensure? && s.callers[c].force
    requires Rests(s)
    ensures Leads(s, CallerAt(s, c, Reset(s.sh).(lifecycle := Is(c), lock := ByCaller(c)),
                              s.callers[c].(pc := Restart(CreateThread), t := s.sh.thread)))
  {
    hide Leads, Run, RequestStep, CallStep, AwaitStep, GuardStep, BetweenStep, StopStep;
    var me := s.callers[c].(t := s.sh.thread);
    var open := Dropped(s.sh).(lifecycle := Is(c), lock := ByCaller(c), shutdown := false, thread := Nobody);
    ForcedReopens(s, c);
    CallerMoves(s, c, open, me.(pc := Restart(DecideStart)), Go);
    CallerMoves(s, c, open, me.(pc := Restart(ResetErrors)), Go);
  }

  /** The fields once a forced caller is about to create a thread. */
  function Reset(sh: Shared): Shared {
    Dropped(sh).(shutdown := false, thread := Nobody, broken := false, connectError := false)
  }

  /** A forced caller with no worker running brings the client back: a new worker serves a ready session
      with `_shutdown` lowered. */
  lemma ForcedBringsBack(s: State, c: nat)
    requires c < |s.callers| && s.callers[c].pc == Request(EnterLifecycle) && s.callers[c].op.Ensure? && s.callers[c].force
    requires Rests(s)
    ensures var n, g := |s.workers|, s.sh.generation + 1;
      Leads(s, State(Reset(s.sh).(thread := Is(n), loop := Is(n), session := Is(n), generation := g, ready := true,
                                  lifecycle := Nobody, lock := Free),
                     s.callers[c := s.callers[c].(pc := Await(AwaitReady), t := s.sh.thread)],
                     s.workers + [Worker(Serving, g)]))
  {
    hide Leads, Run, RequestStep, CallStep, AwaitStep, GuardStep, BetweenStep, StopStep, RestartStep, WorkerStep, CallerStep;
    var n, g, me := |s.workers|, s.sh.generation + 1, s.callers[c].(t := s.sh.thread);
    ForcedReachesCreate(s, c);
    CreatesWorker(s, c, Reset(s.sh).(lifecycle := Is(c), lock := ByCaller(c)), me.(pc := Restart(CreateThread)));
    var s3 := State(Reset(s.sh).(thread := Is(n), lifecycle := Nobody, lock := Free),
                    s.callers[c := me.(pc := Await(AwaitReady))], s.workers + [Worker(PublishLoop, 0)]);
    WorkerConnects(s3, n);
    assert s3.workers[n := Worker(Serving, g)] == s.workers + [Worker(Serving, g)];
    LeadsFurther(s, s3, WorkerAt(s3, n, s3.sh.(loop := Is(n), session := Is(n), generation := g, broken := false, ready := true), Worker(Serving, g)));
  }

  /** A client that was closed, and whose worker nevertheless serves a ready session with `_shutdown`
      lowered again. */
  predicate ServesAfterClose(s: State) {
    && |s.callers| == 2 && s.callers[1].op.Close? && s.callers[1].pc == Request(Idle)
    && !s.sh.shutdown && s.sh.ready && s.sh.session == Is(1)
    && |s.workers| == 2 && s.workers[1].pc.Serving?
  }

  /** The condition of `ClosedForGood` is needed: a forced reconnect past the shutdown check, still waiting
      for the lifecycle lock when `close` returns, clears `_shutdown` and brings the client back. */
  lemma InFlightCallServesAfterClose()
    ensures exists s, s' :: Reachable(s) && Closing(s) && Leads(s, s') && ServesAfterClose(s')
  {
    FailureReachable();
    FailureLeadsToMark();
    MarkLeadsToOrphan();
    LeadsFurther(JustFailed(), Marked(), Orphaned());
    var s5 := Orphaned();
    ClosesQuiet(s5, 1);
    var closed := Start(1).callers[0].(op := Close);
    var s6 := State(s5.sh.(shutdown := true), [Forcing(), closed], s5.workers);
    assert s5.callers[1 := closed] == s6.callers;
    LeadsFurther(JustFailed(), s5, s6);
    ReachesFurther(JustFailed(), s6);
    InFlightReconnects(s6, closed);
  }

  /** `close` has returned: shutdown is requested and its caller is idle again. */
  predicate Closing(s: State) {
    |s.callers| == 2 && s.sh.shutdown && s.callers[1].op.Close? && s.callers[1].pc == Request(Idle)
  }

  lemma InFlightReconnects(s6: State, closed: Caller)
    requires closed.op.Close? && closed.pc == Request(Idle)
    requires s6 == State(Orphaned().sh.(shutdown := true), [Forcing(), closed], Orphaned().workers)
    ensures exists s' :: Leads(s6, s') && ServesAfterClose(s')
  {
    ForcedBringsBack(s6, 0);
    var sh := Reset(s6.sh).(thread := Is(1), loop := Is(1), session := Is(1), generation := 2, ready := true, lifecycle := Nobody, lock := Free);
    var s8 := State(sh, s6.callers[0 := Forcing().(pc := Await(AwaitReady), t := Nobody)], s6.workers + [Worker(Serving, 2)]);
    assert ServesAfterClose(s8);
  }
}
