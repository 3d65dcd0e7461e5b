/** What a client can still do once `_shutdown` has been requested: exactly when a worker can start again and
    exactly when the client can come back (artpm_agent/core/mcp_client_stdio.py). */
module SessionReopening {
  import opened SessionLifecycle
  import opened SessionRuns

  // ---------------------------------------------------------------- what callers carry with them

  /** `close` never looks at the flags, the fast path is not for forced calls, and only forced calls lower
      `_shutdown`. */
  predicate Asks(me: Caller) {
    && (me.pc.Request? && (me.pc.request.CheckShutdown? || me.pc.request.CheckReady? || me.pc.request.CheckBroken?) ==> me.op.Ensure?)
    && (me.pc.Request? && (me.pc.request.CheckReady? || me.pc.request.CheckBroken?) ==> !me.force)
    && (me.pc.Restart? && me.pc.restart.LowerShutdown? ==> me.force)
  }

  /** A forced `_ensure_connected` is past its shutdown check. */
  predicate MayReopen(me: Caller) {
    MayStart(me) && me.force
  }

  /** One step keeps this, and once shutdown is requested only a forced call can lower it. */
  predicate Keeps(sh: Shared, me: Caller, m: CallerMove) {
    m.Moves? ==>
      && Asks(m.me)
      && (sh.shutdown && !MayReopen(me) && (me.pc.Restart? ==> me.op.Ensure?) ==> m.sh.shutdown && !MayReopen(m.me))
  }

  lemma RequestKeeps(sh: Shared, me: Caller, c: nat, k: Choice)
    requires me.pc.Request? && Asks(me)
    ensures Keeps(sh, me, RequestStep(sh, me, c, k))
  {
  }

  lemma CallKeeps(sh: Shared, me: Caller, c: nat, k: Choice)
    requires me.pc.Call? && Asks(me)
    ensures Keeps(sh, me, CallStep(sh, me, c, k))
  {
  }

  lemma AwaitKeeps(sh: Shared, me: Caller, c: nat, alive: set<nat>, k: Choice)
    requires me.pc.Await? && Asks(me)
    ensures Keeps(sh, me, AwaitStep(sh, me, c, alive, k))
  {
    hide AwaitStep;
    WaitingKeepsRequest(sh, me, c, alive, k);
  }

  lemma GuardKeeps(sh: Shared, me: Caller)
    requires me.pc.Guard? && Asks(me)
    ensures Keeps(sh, me, GuardStep(sh, me))
  {
  }

  lemma BetweenKeeps(sh: Shared, me: Caller, c: nat, alive: set<nat>, k: Choice)
    requires me.pc.Between? && Asks(me)
    ensures Keeps(sh, me, BetweenStep(sh, me, c, alive, k))
  {
    hide LocksFollow, FieldsFollow, IsAlive;
  }

  lemma StopKeeps(sh: Shared, me: Caller, alive: set<nat>)
    requires me.pc.Stop? && Asks(me)
    ensures Keeps(sh, me, StopStep(sh, me, alive))
  {
    hide StopStep, FieldsFollow, HoldsLifecycle;
    SectionKeepsRequest(sh, me, alive);
  }

  lemma RestartKeeps(sh: Shared, me: Caller, alive: set<nat>, newId: nat)
    requires me.pc.Restart? && Asks(me)
    ensures Keeps(sh, me, RestartStep(sh, me, alive, newId))
  {
    hide FieldsFollow, IsAlive;
  }

  lemma CallerKeeps(sh: Shared, me: Caller, c: nat, alive: set<nat>, newId: nat, k: Choice)
    requires Asks(me)
    ensures Keeps(sh, me, CallerStep(sh, me, c, alive, newId, k))
  {
    hide RequestStep, CallStep, AwaitStep, GuardStep, BetweenStep, StopStep, RestartStep, Keeps;
    match me.pc
    case Request(_) => RequestKeeps(sh, me, c, k);
    case Call(_) => CallKeeps(sh, me, c, k);
    case Await(_) => AwaitKeeps(sh, me, c, alive, k);
    case Guard(_) => GuardKeeps(sh, me);
    case Between(_) => BetweenKeeps(sh, me, c, alive, k);
    case Stop(_) => StopKeeps(sh, me, alive);
    case Restart(_) => RestartKeeps(sh, me, alive, newId);
  }

  ghost predicate AllAsk(s: State) {
    forall c :: 0 <= c < |s.callers| ==> Asks(s.callers[c])
  }

  lemma StepKeepsAsking(s: State, e: Event)
    requires AllAsk(s) && Step(s, e).Next?
    ensures AllAsk(Step(s, e).state)
  {
    hide CallerStep, WorkerStep, Asks;
    if e.Client? {
      CallerKeeps(s.sh, s.callers[e.c], e.c, AliveWorkers(s.workers), |s.workers|, e.choice);
    }
  }

  lemma {:induction false} RunKeepsAsking(s: State, events: seq<Event>)
    requires AllAsk(s) && Run(s, events).Next?
    ensures AllAsk(Run(s, events).state)
    decreases |events|
  {
    if events != [] {
      RunKeepsAsking(s, events[..|events| - 1]);
      StepKeepsAsking(Run(s, events[..|events| - 1]).state, events[|events| - 1]);
    }
  }

  lemma ReachableAsks(s: State)
    requires Reachable(s)
    ensures AllAsk(s)
  {
    var n: nat, events :| Run(Start(n), events) == Next(s);
    RunKeepsAsking(Start(n), events);
  }

  // ---------------------------------------------------------------- unforced calls leave `_shutdown` alone

  ghost predicate Shut(s: State) {
    s.sh.shutdown && forall c :: 0 <= c < |s.callers| ==> !MayReopen(s.callers[c])
  }

  lemma StepStaysShut(s: State, e: Event)
    requires Inv(s) && AllAsk(s) && Shut(s) && Step(s, e).Next?
    ensures Shut(Step(s, e).state)
  {
    match e
    case Background(w, k) =>
      assert WorkerFieldsFollow(s.sh, s.workers[w].pc, w, WorkerStep(s.sh, s.workers[w].pc, w, k));
      hide WorkerStep;
    case Client(c, k) =>
      var me := s.callers[c];
      assert me.pc.Restart? ==> Owner(s) == me;
      hide CallerStep, Asks, MayReopen;
      CallerKeeps(s.sh, me, c, AliveWorkers(s.workers), |s.workers|, k);
  }

  /** A worker that serves stops serving with its next step. */
  ghost predicate NobodyServesOn(s: State) {
    forall w: nat, k :: w < |s.workers| && s.workers[w].pc.Serving? ==>
      WorkerEvent(s, w, k).Next? && !WorkerEvent(s, w, k).state.workers[w].pc.Serving?
  }

  lemma ServersLeave(s: State)
    ensures s.sh.shutdown ==> NobodyServesOn(s)
  {
  }

  /** With shutdown requested and only unforced calls in flight, `_shutdown` is never lowered again. Whatever
      worker such a call starts leaves at its first look at it. */
  lemma {:induction false} UnforcedStayShut(s: State, events: seq<Event>)
    requires Reachable(s) && Shut(s) && Run(s, events).Next?
    ensures Shut(Run(s, events).state) && NobodyServesOn(Run(s, events).state)
    decreases |events|
  {
    ServersLeave(Run(s, events).state);
    hide CallerStep, WorkerStep, MayReopen, NobodyServesOn;
    if events != [] {
      var before := events[..|events| - 1];
      UnforcedStayShut(s, before);
      RunFromReachable(s, before);
      ReachableInv(Run(s, before).state);
      ReachableAsks(Run(s, before).state);
      StepStaysShut(Run(s, before).state, events[|events| - 1]);
    }
  }

  // ---------------------------------------------------------------- a worker can always finish

  /** How many steps at most a worker that keeps failing is from its end. */
  function Depth(pc: WorkerPc): nat {
    match pc
    case PublishLoop => 16
    case Created | Connecting => 15
    case EnterPublish => 14
    case BumpGeneration => 13
    case ClearBroken => 12
    case RaiseReady => 11
    case Serving => 10
    case LeaveSession => 9
    case Caught => 8
    case RecordError => 7
    case RecordBroken => 6
    case ClearSession => 5
    case ClearReady => 4
    case DrainLoop => 3
    case EnterForget => 2
    case ForgetSelf => 1
    case Exiting => 1
    case Dead => 0
  }

  lemma FailingSinks(sh: Shared, pc: WorkerPc, w: nat)
    requires AlivePc(pc) && (pc.PublishLoop? || pc.EnterPublish? || pc.EnterForget? ==> sh.lock.Free?)
    ensures var m := WorkerStep(sh, pc, w, Fail);
      && m.Turns? && m.sh.shutdown == sh.shutdown && m.sh.lifecycle == sh.lifecycle
      && !(m.sh.lock.ByCaller? && !sh.lock.ByCaller?)
      && (m.sh.thread == sh.thread || m.sh.thread.Nobody?)
      && (Depth(m.pc) < Depth(pc) || m.pc.Exiting?)
      && (m.pc.Exiting? && sh.thread == Is(w) ==> m.sh.thread.Nobody?)
  {
  }

  /** No caller holds a lock. */
  ghost predicate CallersOut(s: State) {
    Inv(s) && s.sh.lifecycle.Nobody? && !s.sh.lock.ByCaller?
  }

  /** What sinking leaves as it is. */
  predicate SameCallers(s: State, s': State) {
    s'.callers == s.callers && s'.sh.shutdown == s.sh.shutdown && |s'.workers| == |s.workers|
  }

  lemma SinkStep(s: State)
    requires CallersOut(s) && IsAlive(AliveWorkers(s.workers), s.sh.thread)
    ensures var r := Step(s, Background(s.sh.thread.id, Fail));
      && r.Next? && CallersOut(r.state) && SameCallers(s, r.state)
      && (r.state.sh.thread.Nobody? || (r.state.sh.thread == s.sh.thread && Depth(Cur(r.state)) < Depth(Cur(s))))
  {
    var w := s.sh.thread.id;
    FailingSinks(s.sh, s.workers[w].pc, w);
    StepKeepsInv(s, Background(w, Fail));
    hide WorkerStep;
  }

  lemma RestsAtLast(s: State)
    requires CallersOut(s) && !IsAlive(AliveWorkers(s.workers), s.sh.thread)
    ensures Rests(s) && !s.sh.ready
  {
  }

  /** While no caller holds a lock, the worker can fail its way out, and nothing else changes hands. */
  lemma {:induction false} Sinks(s: State) returns (r: State)
    requires CallersOut(s)
    ensures Leads(s, r) && Inv(r) && Rests(r) && !r.sh.ready && SameCallers(s, r)
    decreases if s.sh.thread.Nobody? then 0 else 1 + Depth(Cur(s))
  {
    hide Inv, Depth;
    if IsAlive(AliveWorkers(s.workers), s.sh.thread) {
      SinkStep(s);
      LeadsNowhere(s);
      LeadsOn(s, s, Background(s.sh.thread.id, Fail));
      var next := Step(s, Background(s.sh.thread.id, Fail)).state;
      r := Sinks(next);
      LeadsFurther(s, next, r);
    } else {
      LeadsNowhere(s);
      RestsAtLast(s);
      r := s;
    }
  }

  // ---------------------------------------------------------------- a call in flight can always start a worker

  ghost predicate LocksFree(s: State) {
    s.sh.lifecycle.Nobody? && s.sh.lock.Free?
  }

  /** From the unguarded checks a call gets to the lifecycle lock with no worker running, unless it is about
      to find the client unbroken. */
  lemma ReachesLock(s: State, d: nat) returns (r: State)
    requires Inv(s) && AllAsk(s) && LocksFree(s) && d < |s.callers| && MayStart(s.callers[d])
    requires s.callers[d].pc == Request(CheckBroken) ==> s.sh.broken
    ensures Leads(s, r) && Rests(r) && !r.sh.ready && |r.workers| == |s.workers| && r.sh.shutdown == s.sh.shutdown
    ensures d < |r.callers| && r.callers[d] == s.callers[d].(pc := Request(EnterLifecycle))
  {
    var me := s.callers[d];
    assert me.pc.Request?;
    LeadsNowhere(s);
    if me.pc.request.CheckReady? {
      var rest := Sinks(s);
      LeadsNowhere(rest);
      r := ReachesLockNow(rest, d);
      LeadsFurther(s, rest, r);
    } else if me.pc.request.CheckBroken? {
      StepKeepsInv(s, Client(d, Go));
      LeadsOn(s, s, Client(d, Go));
      var next := Step(s, Client(d, Go)).state;
      r := Sinks(next);
      LeadsFurther(s, next, r);
    } else {
      r := Sinks(s);
    }
  }

  lemma ReachesLockNow(s: State, d: nat) returns (r: State)
    requires Rests(s) && !s.sh.ready && d < |s.callers| && s.callers[d].pc == Request(CheckReady)
    ensures Leads(s, r) && Rests(r) && !r.sh.ready && |r.workers| == |s.workers| && r.sh.shutdown == s.sh.shutdown
    ensures d < |r.callers| && r.callers[d] == s.callers[d].(pc := Request(EnterLifecycle))
  {
    LeadsNowhere(s);
    LeadsOn(s, s, Client(d, Go));
    r := Step(s, Client(d, Go)).state;
  }

  /** Some continuation starts a worker. */
  ghost predicate CanStart(s: State) {
    exists s' :: Leads(s, s') && |s'.workers| > |s.workers|
  }

  /** Some continuation lowers `_shutdown`. */
  ghost predicate CanReopen(s: State) {
    exists s' :: Leads(s, s') && !s'.sh.shutdown
  }

  /** In some continuation a client that is not closed serves a ready session of a new worker. */
  ghost predicate CanComeBack(s: State) {
    exists s' :: Leads(s, s') && !s'.sh.shutdown && UsedBy(s', |s.workers|)
  }

  predicate UsedBy(s: State, w: nat) {
    s.sh.ready && !s.sh.broken && s.sh.session == Is(w) && w < |s.workers| && s.workers[w].pc.Serving?
  }

  lemma InFlightCanStart(s: State, d: nat)
    requires Reachable(s) && LocksFree(s) && d < |s.callers| && MayStart(s.callers[d])
    requires s.callers[d].pc == Request(CheckBroken) ==> s.sh.broken
    ensures CanStart(s) && (s.callers[d].force ==> CanComeBack(s))
  {
    ReachableInv(s);
    ReachableAsks(s);
    assert s.callers[d].op.Ensure?;
    var r := ReachesLock(s, d);
    hide Inv, AllAsk, Asks, Rests;
    if s.callers[d].force {
      ForcedBringsBack(r, d);
      var back := BroughtBack(r, d);
      LeadsFurther(s, r, back);
      assert !back.sh.shutdown && UsedBy(back, |s.workers|);
    } else {
      StartsWorker(r, d);
      LeadsFurther(s, r, Started(r, d));
    }
  }

  /** Where `ForcedBringsBack` leads. */
  function BroughtBack(s: State, c: nat): State
    requires c < |s.callers|
  {
    var n, g := |s.workers|, s.sh.generation + 1;
    State(Reset(s.sh).(thread := Is(n), loop := Is(n), session := Is(n), generation := g, ready := true,
                       lifecycle := Nobody, lock := Free),
          s.callers[c := s.callers[c].(pc := Await(AwaitReady), t := s.sh.thread)],
          s.workers + [Worker(Serving, g)])
  }

  /** Where `StartsWorker` leads. */
  function Started(s: State, c: nat): State
    requires c < |s.callers|
  {
    State(s.sh.(thread := Is(|s.workers|), broken := false, connectError := false),
          s.callers[c := s.callers[c].(pc := Await(AwaitReady))], s.workers + [Worker(PublishLoop, 0)])
  }

  // ---------------------------------------------------------------- exactly when

  /** With shutdown requested and no lock held, the client comes back in some continuation, and `_shutdown`
      is lowered in some continuation, exactly if a forced call is past its shutdown check. */
  lemma ComesBackExactly(s: State)
    requires Reachable(s) && s.sh.shutdown && LocksFree(s)
    ensures CanComeBack(s) <==> exists d :: 0 <= d < |s.callers| && MayReopen(s.callers[d])
    ensures CanReopen(s) <==> exists d :: 0 <= d < |s.callers| && MayReopen(s.callers[d])
  {
    if d :| 0 <= d < |s.callers| && MayReopen(s.callers[d]) {
      ReachableAsks(s);
      assert Asks(s.callers[d]);
      InFlightCanStart(s, d);
    } else if CanReopen(s) {
      var s' :| Leads(s, s') && !s'.sh.shutdown;
      var events :| Run(s, events) == Next(s');
      UnforcedStayShut(s, events);
    }
  }

  /** While the client is also marked broken, some continuation starts a worker exactly if any
      `_ensure_connected` is past its shutdown check. */
  lemma StartsExactly(s: State)
    requires Reachable(s) && s.sh.shutdown && LocksFree(s) && s.sh.broken
    ensures CanStart(s) <==> exists d :: 0 <= d < |s.callers| && MayStart(s.callers[d])
  {
    if d :| 0 <= d < |s.callers| && MayStart(s.callers[d]) {
      InFlightCanStart(s, d);
    } else if CanStart(s) {
      var s' :| Leads(s, s') && |s'.workers| > |s.workers|;
      var events :| Run(s, events) == Next(s');
      ClosedForGood(s, events);
    }
  }

  lemma StepReachable(s: State, e: Event)
    requires Reachable(s) && Step(s, e).Next?
    ensures Reachable(Step(s, e).state)
  {
    LeadsNowhere(s);
    LeadsOn(s, s, e);
    ReachesFurther(s, Step(s, e).state);
  }

  /** Another call than `c`'s is past its shutdown check, or another forced one. */
  ghost predicate OtherMayStart(s: State, c: nat) {
    exists d :: 0 <= d < |s.callers| && d != c && MayStart(s.callers[d])
  }

  ghost predicate OtherMayReopen(s: State, c: nat) {
    exists d :: 0 <= d < |s.callers| && d != c && MayReopen(s.callers[d])
  }

  /** The others are where they were, and `c` is not in flight. */
  lemma OthersDecide(s: State, s': State, c: nat)
    requires c < |s.callers| == |s'.callers| && s'.callers == s.callers[c := s'.callers[c]] && !MayStart(s'.callers[c])
    ensures OtherMayStart(s, c) <==> exists d :: 0 <= d < |s'.callers| && MayStart(s'.callers[d])
    ensures OtherMayReopen(s, c) <==> exists d :: 0 <= d < |s'.callers| && MayReopen(s'.callers[d])
  {
    assert forall d :: 0 <= d < |s.callers| && d != c ==> s'.callers[d] == s.callers[d];
    hide MayStart;
    if OtherMayStart(s, c) {
      var d :| 0 <= d < |s.callers| && d != c && MayStart(s.callers[d]);
      assert MayStart(s'.callers[d]);
    }
    if OtherMayReopen(s, c) {
      var d :| 0 <= d < |s.callers| && d != c && MayReopen(s.callers[d]);
      assert MayReopen(s'.callers[d]);
    }
  }

  /** A forced reconnect has just given up joining its worker, though nobody closed the client. From there on
      a worker starts in some continuation exactly if another `_ensure_connected` is past its shutdown check,
      and the client comes back in some continuation exactly if a forced one is. */
  lemma JoinTimeoutExactly(s: State, c: nat, k: Choice)
    requires Reachable(s) && c < |s.callers| && s.callers[c].pc == Between(EnterJoinFailed)
    ensures var r := CallerEvent(s, c, k); r.Next? ==>
      && r.state.sh.shutdown
      && (CanStart(r.state) <==> OtherMayStart(s, c))
      && (CanComeBack(r.state) <==> OtherMayReopen(s, c))
  {
    hide CanStart, CanComeBack, CanReopen, OtherMayStart, OtherMayReopen, Reachable;
    var r := Step(s, Client(c, k));
    if r.Next? {
      GivesUp(s, c, k);
      StepReachable(s, Client(c, k));
      OthersDecide(s, r.state, c);
      StartsExactly(r.state);
      ComesBackExactly(r.state);
    }
  }

  lemma GivesUp(s: State, c: nat, k: Choice)
    requires Reachable(s) && c < |s.callers| && s.callers[c].pc == Between(EnterJoinFailed) && CallerEvent(s, c, k).Next?
    ensures var s' := CallerEvent(s, c, k).state;
      && s'.sh.shutdown && s'.sh.broken && LocksFree(s')
      && |s'.callers| == |s.callers| && s'.callers == s.callers[c := s'.callers[c]] && !MayStart(s'.callers[c])
  {
    ReachableInv(s);
  }

  /** `close` has just returned. From there on the client comes back in some continuation exactly if a forced
      `_ensure_connected` is past its shutdown check. */
  lemma CloseExactly(s: State, c: nat, k: Choice)
    requires Reachable(s) && c < |s.callers| && s.callers[c].pc == Stop(ForgetRefs)
    ensures var r := CallerEvent(s, c, k);
      && r.Next? && r.state.sh.shutdown
      && (CanComeBack(r.state) <==> OtherMayReopen(s, c))
      && (CanReopen(r.state) <==> OtherMayReopen(s, c))
  {
    hide CanComeBack, CanReopen, OtherMayReopen, Reachable;
    CloseReturns(s, c, k);
    var r := Step(s, Client(c, k));
    StepReachable(s, Client(c, k));
    OthersDecide(s, r.state, c);
    ComesBackExactly(r.state);
  }

  lemma CloseReturns(s: State, c: nat, k: Choice)
    requires Reachable(s) && c < |s.callers| && s.callers[c].pc == Stop(ForgetRefs)
    ensures CallerEvent(s, c, k).Next?
    ensures var s' := CallerEvent(s, c, k).state;
      && s'.sh.shutdown && LocksFree(s')
      && |s'.callers| == |s.callers| && s'.callers == s.callers[c := s'.callers[c]] && !MayStart(s'.callers[c])
  {
    ReachableInv(s);
  }
}
