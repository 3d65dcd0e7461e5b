/** What `_ensure_connected` answers, and what a failed call does about it
    (artpm_agent/core/mcp_client_stdio.py). Every statement here is about the fields and the caller's place
    before and after one step of the whole system. */
module SessionAnswers {
  import opened SessionLifecycle
  import opened SessionReopening

  /** The caller is inside `_ensure_connected`. */
  predicate Ensuring(me: Caller) {
    match me.pc
    case Request(at) => !at.Idle? && (at.EnterLifecycle? ==> me.op.Ensure?)
    case Call(_) => false
    case Guard(at) => at.PollBroken?
    case Between(_) | Stop(_) => me.op.Ensure?
    case Await(_) | Restart(_) => true
  }

  /** A step of caller `c` takes it from `me` in `s` to `me'` in `s'`. */
  ghost predicate Steps(s: State, s': State, c: nat, k: Choice) {
    c < |s.callers| == |s'.callers| && Step(s, Client(c, k)) == Next(s')
  }

  /** The flags say so: unbroken at the second look of a check whose first look saw `_ready`, or `_ready`
      itself while waiting. */
  predicate SeesConnection(s: State, me: Caller, k: Choice) {
    || (me.pc == Request(CheckBroken) && !s.sh.broken)
    || (me.pc == Stop(RecheckBroken) && !s.sh.broken)
    || (me.pc == Await(AwaitReady) && !k.Expire? && s.sh.ready)
  }

  /** It has a reason to answer False: shutdown, a join or a wait that timed out, or an error or a broken
      mark polled together with a thread that is not alive. */
  predicate SeesFailure(s: State, me: Caller) {
    || (me.pc == Request(CheckShutdown) && s.sh.shutdown)
    || me.pc == Between(EnterJoinFailed)
    || me.pc == Await(ExpireError)
    || (me.pc == Await(PollAlive) && (me.sawError || me.sawBroken) &&
        !(me.sawThread.Is? && me.sawThread.id < |s.workers| && AlivePc(s.workers[me.sawThread.id].pc)))
  }

  /** How one step leaves `_ensure_connected`. */
  predicate AnswersRightly(s: State, me: Caller, next: Caller, k: Choice) {
    Ensuring(me) ==>
      && next.op == me.op && next.retry == me.retry && next.force == me.force && next.g == me.g
      && (!Ensuring(next) <==> SeesConnection(s, me, k) || SeesFailure(s, me))
      && (SeesConnection(s, me, k) ==> next.pc == if me.retry then Request(Idle) else Call(EnterReadGeneration))
      && (SeesFailure(s, me) ==> next.pc == Request(Idle))
  }

  /** How a caller gets to where it decides: past a look that saw `_ready`, unforced; past a wait or a join
      that timed out. */
  predicate DecidesAfter(s: State, me: Caller, next: Caller, k: Choice) {
    && (next.pc == Request(CheckReady) <==> me.pc == Request(CheckShutdown) && !s.sh.shutdown && !me.force)
    && (next.pc == Request(CheckBroken) <==> me.pc == Request(CheckReady) && s.sh.ready)
    && (next.pc == Stop(RecheckBroken) <==> me.pc == Stop(RecheckReady) && s.sh.ready)
    && (next.pc == Await(ExpireBroken) <==> me.pc == Await(AwaitReady) && k.Expire?)
    && (next.pc == Await(ExpireError) <==> me.pc == Await(ExpireBroken))
    && (next.pc == Between(EnterJoinFailed) <==>
        me.pc == Between(Join) && k.Expire? && me.op.Ensure? &&
        me.t.Is? && me.t.id < |s.workers| && AlivePc(s.workers[me.t.id].pc))
  }

  /** What a poll has seen are the fields at its two steps. */
  predicate PollsFields(s: State, me: Caller, next: Caller) {
    && (if me.pc == Await(EnterPoll) then next.sawThread == s.sh.thread && next.sawError == s.sh.connectError
        else next.sawThread == me.sawThread && next.sawError == me.sawError)
    && next.sawBroken == (if me.pc == Guard(PollBroken) then s.sh.broken else me.sawBroken)
  }

  /** The caller has been told that there is a connection, or is about to be. */
  predicate ToldReady(me: Caller) {
    me.pc == Request(CheckBroken) || me.pc == Stop(RecheckBroken) || me.pc.Call? || me.pc == Guard(MarkFailure)
  }

  predicate Answers(s: State, me: Caller, m: CallerMove, k: Choice) {
    m.Moves? ==> AnswersRightly(s, me, m.me, k)
  }

  predicate Decides(s: State, me: Caller, m: CallerMove, k: Choice) {
    m.Moves? ==>
      && DecidesAfter(s, me, m.me, k) && PollsFields(s, me, m.me)
      && (!Ensuring(me) && !ToldReady(me) ==> !ToldReady(m.me))
  }

  lemma IdleIsRight(s: State, me: Caller, c: nat, k: Choice)
    requires me.pc == Request(Idle) || me.pc == Request(EnterLifecycle)
    ensures Answers(s, me, RequestStep(s.sh, me, c, k), k) && Decides(s, me, RequestStep(s.sh, me, c, k), k)
  {
    hide OutsideEffect, HoldsLifecycle;
  }

  lemma ShutdownCheckIsRight(s: State, me: Caller, c: nat, k: Choice)
    requires me.pc == Request(CheckShutdown) && Asks(me)
    ensures Answers(s, me, RequestStep(s.sh, me, c, k), k) && Decides(s, me, RequestStep(s.sh, me, c, k), k)
  {
    hide OutsideEffect, HoldsLifecycle;
  }

  lemma ReadyCheckIsRight(s: State, me: Caller, c: nat, k: Choice)
    requires me.pc == Request(CheckReady) && Asks(me)
    ensures Answers(s, me, RequestStep(s.sh, me, c, k), k) && Decides(s, me, RequestStep(s.sh, me, c, k), k)
  {
    hide OutsideEffect, HoldsLifecycle;
  }

  lemma BrokenCheckIsRight(s: State, me: Caller, c: nat, k: Choice)
    requires me.pc == Request(CheckBroken) && Asks(me)
    ensures Answers(s, me, RequestStep(s.sh, me, c, k), k) && Decides(s, me, RequestStep(s.sh, me, c, k), k)
  {
    hide OutsideEffect, HoldsLifecycle;
  }

  lemma CallIsRight(s: State, me: Caller, c: nat, k: Choice)
    requires me.pc.Call?
    ensures Answers(s, me, CallStep(s.sh, me, c, k), k) && Decides(s, me, CallStep(s.sh, me, c, k), k)
  {
    hide OutsideEffect, HoldsLifecycle;
  }

  lemma ReadyWaitIsRight(s: State, me: Caller, c: nat, k: Choice)
    requires me.pc == Await(AwaitReady)
    ensures Answers(s, me, AwaitStep(s.sh, me, c, AliveWorkers(s.workers), k), k) && Decides(s, me, AwaitStep(s.sh, me, c, AliveWorkers(s.workers), k), k)
  {
    hide OutsideEffect, HoldsLifecycle;
  }

  lemma PollIsRight(s: State, me: Caller, c: nat, k: Choice)
    requires me.pc == Await(EnterPoll) || me.pc == Await(PollAlive)
    ensures Answers(s, me, AwaitStep(s.sh, me, c, AliveWorkers(s.workers), k), k) && Decides(s, me, AwaitStep(s.sh, me, c, AliveWorkers(s.workers), k), k)
  {
    hide OutsideEffect, HoldsLifecycle;
  }

  lemma ExpiryIsRight(s: State, me: Caller, c: nat, k: Choice)
    requires me.pc == Await(ExpireBroken) || me.pc == Await(ExpireError)
    ensures Answers(s, me, AwaitStep(s.sh, me, c, AliveWorkers(s.workers), k), k) && Decides(s, me, AwaitStep(s.sh, me, c, AliveWorkers(s.workers), k), k)
  {
    hide OutsideEffect, HoldsLifecycle;
  }

  lemma GuardIsRight(s: State, me: Caller, c: nat, k: Choice)
    requires me.pc.Guard?
    ensures Answers(s, me, GuardStep(s.sh, me), k) && Decides(s, me, GuardStep(s.sh, me), k)
  {
    hide OutsideEffect, LocksFollow;
  }

  lemma JoinIsRight(s: State, me: Caller, c: nat, k: Choice)
    requires me.pc == Between(Join) || me.pc == Between(EnterJoinFailed)
    ensures Answers(s, me, BetweenStep(s.sh, me, c, AliveWorkers(s.workers), k), k) && Decides(s, me, BetweenStep(s.sh, me, c, AliveWorkers(s.workers), k), k)
  {
    hide LocksFollow, FieldsFollow;
  }

  lemma EntryIsRight(s: State, me: Caller, c: nat, k: Choice)
    requires me.pc == Between(EnterStop) || me.pc == Between(EnterRestart)
    ensures Answers(s, me, BetweenStep(s.sh, me, c, AliveWorkers(s.workers), k), k) && Decides(s, me, BetweenStep(s.sh, me, c, AliveWorkers(s.workers), k), k)
  {
    hide LocksFollow, FieldsFollow;
  }

  lemma ReadyRecheckIsRight(s: State, me: Caller, c: nat, k: Choice)
    requires me.pc == Stop(RecheckReady) && me.op.Ensure?
    ensures Answers(s, me, StopStep(s.sh, me, AliveWorkers(s.workers)), k) && Decides(s, me, StopStep(s.sh, me, AliveWorkers(s.workers)), k)
  {
    hide FieldsFollow, IsAlive, HoldsLifecycle;
  }

  lemma BrokenRecheckIsRight(s: State, me: Caller, c: nat, k: Choice)
    requires me.pc == Stop(RecheckBroken) && me.op.Ensure?
    ensures Answers(s, me, StopStep(s.sh, me, AliveWorkers(s.workers)), k) && Decides(s, me, StopStep(s.sh, me, AliveWorkers(s.workers)), k)
  {
    hide FieldsFollow, IsAlive, HoldsLifecycle;
  }

  lemma StoppingIsRight(s: State, me: Caller, c: nat, k: Choice)
    requires me.pc == Stop(RaiseShutdown) || me.pc == Stop(DropRefs) || me.pc == Stop(LowerReady)
    ensures Answers(s, me, StopStep(s.sh, me, AliveWorkers(s.workers)), k) && Decides(s, me, StopStep(s.sh, me, AliveWorkers(s.workers)), k)
  {
    hide FieldsFollow, IsAlive, HoldsLifecycle;
  }

  lemma ForgettingIsRight(s: State, me: Caller, c: nat, k: Choice)
    requires me.pc == Stop(ForgetRefs) && me.op.Close?
    ensures Answers(s, me, StopStep(s.sh, me, AliveWorkers(s.workers)), k) && Decides(s, me, StopStep(s.sh, me, AliveWorkers(s.workers)), k)
  {
    hide FieldsFollow, IsAlive, HoldsLifecycle;
  }

  lemma ResetIsRight(s: State, me: Caller, c: nat, k: Choice)
    requires me.pc == Restart(LowerShutdown) || me.pc == Restart(LowerReadyAgain) || me.pc == Restart(ForgetDead)
    ensures Answers(s, me, RestartStep(s.sh, me, AliveWorkers(s.workers), |s.workers|), k) && Decides(s, me, RestartStep(s.sh, me, AliveWorkers(s.workers), |s.workers|), k)
  {
    hide FieldsFollow, IsAlive;
  }

  lemma DecisionIsRight(s: State, me: Caller, c: nat, k: Choice)
    requires me.pc == Restart(DecideStart) || me.pc == Restart(ResetErrors)
    ensures Answers(s, me, RestartStep(s.sh, me, AliveWorkers(s.workers), |s.workers|), k) && Decides(s, me, RestartStep(s.sh, me, AliveWorkers(s.workers), |s.workers|), k)
  {
    hide FieldsFollow, IsAlive;
  }

  lemma SpawnIsRight(s: State, me: Caller, c: nat, k: Choice)
    requires me.pc == Restart(CreateThread) || me.pc == Restart(StartThread)
    ensures Answers(s, me, RestartStep(s.sh, me, AliveWorkers(s.workers), |s.workers|), k) && Decides(s, me, RestartStep(s.sh, me, AliveWorkers(s.workers), |s.workers|), k)
  {
    hide FieldsFollow, IsAlive;
  }

  /** Only `_ensure_connected` looks again under the locks, and only `close` forgets the references. */
  predicate StopsAsAsked(me: Caller)
    requires me.pc.Stop?
  {
    && (me.pc.stop.ForgetRefs? ==> me.op.Close?)
    && (me.pc.stop.RecheckReady? || me.pc.stop.RecheckBroken? ==> me.op.Ensure?)
  }

  lemma RequestIsRight(s: State, me: Caller, c: nat, k: Choice)
    requires me.pc.Request? && Asks(me)
    ensures Answers(s, me, RequestStep(s.sh, me, c, k), k) && Decides(s, me, RequestStep(s.sh, me, c, k), k)
  {
    hide RequestStep, Answers, Decides;
    match me.pc.request
    case Idle | EnterLifecycle => IdleIsRight(s, me, c, k);
    case CheckShutdown => ShutdownCheckIsRight(s, me, c, k);
    case CheckReady => ReadyCheckIsRight(s, me, c, k);
    case CheckBroken => BrokenCheckIsRight(s, me, c, k);
  }

  lemma AwaitIsRight(s: State, me: Caller, c: nat, k: Choice)
    requires me.pc.Await?
    ensures var m := AwaitStep(s.sh, me, c, AliveWorkers(s.workers), k); Answers(s, me, m, k) && Decides(s, me, m, k)
  {
    hide AwaitStep, Answers, Decides;
    match me.pc.await
    case AwaitReady => ReadyWaitIsRight(s, me, c, k);
    case EnterPoll | PollAlive => PollIsRight(s, me, c, k);
    case ExpireBroken | ExpireError => ExpiryIsRight(s, me, c, k);
  }

  lemma BetweenIsRight(s: State, me: Caller, c: nat, k: Choice)
    requires me.pc.Between?
    ensures var m := BetweenStep(s.sh, me, c, AliveWorkers(s.workers), k); Answers(s, me, m, k) && Decides(s, me, m, k)
  {
    hide BetweenStep, Answers, Decides;
    match me.pc.between
    case Join | EnterJoinFailed => JoinIsRight(s, me, c, k);
    case EnterStop | EnterRestart => EntryIsRight(s, me, c, k);
  }

  lemma StopIsRight(s: State, me: Caller, c: nat, k: Choice)
    requires me.pc.Stop? && StopsAsAsked(me)
    ensures var m := StopStep(s.sh, me, AliveWorkers(s.workers)); Answers(s, me, m, k) && Decides(s, me, m, k)
  {
    hide StopStep, Answers, Decides;
    match me.pc.stop
    case RecheckReady => ReadyRecheckIsRight(s, me, c, k);
    case RecheckBroken => BrokenRecheckIsRight(s, me, c, k);
    case ForgetRefs => ForgettingIsRight(s, me, c, k);
    case _ => StoppingIsRight(s, me, c, k);
  }

  lemma RestartIsRight(s: State, me: Caller, c: nat, k: Choice)
    requires me.pc.Restart?
    ensures var m := RestartStep(s.sh, me, AliveWorkers(s.workers), |s.workers|); Answers(s, me, m, k) && Decides(s, me, m, k)
  {
    hide RestartStep, Answers, Decides;
    match me.pc.restart
    case LowerShutdown | LowerReadyAgain | ForgetDead => ResetIsRight(s, me, c, k);
    case DecideStart | ResetErrors => DecisionIsRight(s, me, c, k);
    case CreateThread | StartThread => SpawnIsRight(s, me, c, k);
  }

  lemma ReachableStopsAsAsked(s: State, c: nat)
    requires Inv(s) && c < |s.callers| && s.callers[c].pc.Stop?
    ensures StopsAsAsked(s.callers[c])
  {
    assert Owner(s) == s.callers[c];
  }

  /** A step leaves `_ensure_connected` exactly if it sees a connection or a reason to fail. With a
      connection a first attempt goes on to the call (a second one sends its request there and is done);
      without one the request is over. Where it decides it has got to as `DecidesAfter` says, and what it has
      polled are the fields. */
  lemma EnsureAnswersExactly(s: State, s': State, c: nat, k: Choice)
    requires Reachable(s) && Steps(s, s', c, k)
    ensures AnswersRightly(s, s.callers[c], s'.callers[c], k)
    ensures DecidesAfter(s, s.callers[c], s'.callers[c], k) && PollsFields(s, s.callers[c], s'.callers[c])
  {
    StepIsRight(s, s', c, k);
  }

  lemma StepIsRight(s: State, s': State, c: nat, k: Choice)
    requires Reachable(s) && Steps(s, s', c, k)
    ensures var m := Moves(s'.sh, s'.callers[c]); Answers(s, s.callers[c], m, k) && Decides(s, s.callers[c], m, k)
  {
    ReachableInv(s);
    ReachableAsks(s);
    hide RequestStep, CallStep, AwaitStep, GuardStep, BetweenStep, StopStep, RestartStep;
    hide Inv, Answers, Decides, StopsAsAsked, Asks, LocksFollow, FieldsFollow, OutsideEffect, Spawned;
    var me := s.callers[c];
    match me.pc
    case Request(_) => RequestIsRight(s, me, c, k);
    case Call(_) => CallIsRight(s, me, c, k);
    case Await(_) => AwaitIsRight(s, me, c, k);
    case Guard(_) => GuardIsRight(s, me, c, k);
    case Between(_) => BetweenIsRight(s, me, c, k);
    case Stop(_) =>
      ReachableStopsAsAsked(s, c);
      StopIsRight(s, me, c, k);
    case Restart(_) => RestartIsRight(s, me, c, k);
  }

  // ---------------------------------------------------------------- whole runs

  /** `_ready` is not set at any point of the run. */
  ghost predicate NeverReady(s: State, events: seq<Event>)
    requires Run(s, events).Next?
    decreases |events|
  {
    && !Run(s, events).state.sh.ready
    && (events != [] ==> NeverReady(s, events[..|events| - 1]))
  }

  lemma StepTellsNobody(s: State, s': State, c: nat, k: Choice)
    requires Reachable(s) && Steps(s, s', c, k) && !s.sh.ready && !ToldReady(s.callers[c])
    ensures !ToldReady(s'.callers[c])
  {
    StepIsRight(s, s', c, k);
    hide Step;
  }

  /** No request is sent unless `_ready` was set at some point since it was made. */
  lemma {:induction false} NoCallWithoutReady(s: State, events: seq<Event>, c: nat)
    requires Reachable(s) && c < |s.callers| && !ToldReady(s.callers[c])
    requires Run(s, events).Next? && NeverReady(s, events)
    ensures c < |Run(s, events).state.callers| && !ToldReady(Run(s, events).state.callers[c])
    decreases |events|
  {
    if events != [] {
      var before, e := events[..|events| - 1], events[|events| - 1];
      NoCallWithoutReady(s, before, c);
      RunFromReachable(s, before);
      var last := Run(s, before).state;
      if e.Client? && e.c == c {
        StepTellsNobody(last, Step(last, e).state, c, e.choice);
      }
    }
  }

  // ---------------------------------------------------------------- a failed call

  /** A call that failed forces a reconnect exactly if its generation is still the current one, and then the
      session is dropped as broken before anything else. Otherwise it just asks again, and neither the
      session nor any other field is touched. */
  lemma FailureForcesExactly(s: State, s': State, c: nat, k: Choice)
    requires Steps(s, s', c, k) && s.callers[c].pc == Call(EnterFailure)
    ensures s.sh.lock.Free?
    ensures var me, next := s.callers[c], s'.callers[c];
      && s'.workers == s.workers
      && if s.sh.generation == me.g
         then next == me.(pc := Guard(MarkFailure)) && s'.sh == s.sh.(lock := ByCaller(c))
         else next == me.(pc := Request(CheckShutdown), op := Ensure, force := false, retry := true) && s'.sh == s.sh
  {
  }

  lemma MarkedIsForced(s: State, s': State, c: nat, k: Choice)
    requires Steps(s, s', c, k) && s.callers[c].pc == Guard(MarkFailure)
    ensures s'.callers[c] == s.callers[c].(pc := Request(CheckShutdown), op := Ensure, force := true, retry := true)
    ensures s'.sh == s.sh.(broken := true, session := Nobody, lock := Free) && s'.workers == s.workers
  {
  }

  // ---------------------------------------------------------------- who writes what

  /** A thread to join has finished, or there is none, and it is still `_thread`. */
  predicate MayForget(s: State, t: Ref) {
    && !(t.Is? && t.id < |s.workers| && AlivePc(s.workers[t.id].pc))
    && (t.Nobody? || s.sh.thread == t)
  }

  /** The end of `close` finds its worker finished. */
  predicate Forgets(s: State, me: Caller) {
    me.pc == Stop(ForgetRefs) && MayForget(s, me.t)
  }

  /** Each field after a caller's step: who sets it, who clears it, and that nobody else touches it. */
  predicate CallerWrites(s: State, me: Caller, sh: Shared) {
    && sh.shutdown == (if me.pc == Stop(RaiseShutdown) then true else if me.pc == Restart(LowerShutdown) then false else s.sh.shutdown)
    && sh.ready == (s.sh.ready && me.pc != Stop(LowerReady) && me.pc != Restart(LowerReadyAgain) && !Forgets(s, me))
    && sh.broken == (
      if me.pc == Guard(MarkFailure) || me.pc == Await(ExpireBroken) || me.pc == Between(EnterJoinFailed) then true
      else if me.pc == Restart(ResetErrors) then false else s.sh.broken)
    && sh.connectError == (if me.pc == Await(ExpireError) then true else if me.pc == Restart(ResetErrors) then false else s.sh.connectError)
    && sh.generation == s.sh.generation
    && sh.session == (if me.pc == Guard(MarkFailure) || me.pc == Stop(DropRefs) || Forgets(s, me) then Nobody else s.sh.session)
    && sh.loop == (if me.pc == Stop(DropRefs) || Forgets(s, me) then Nobody else s.sh.loop)
    && sh.thread == (
      if me.pc == Restart(CreateThread) then Is(|s.workers|)
      else if Forgets(s, me) || (me.pc == Restart(ForgetDead) && me.t.Is? && MayForget(s, me.t)) then Nobody
      else s.sh.thread)
  }

  predicate Writes(s: State, me: Caller, m: CallerMove) {
    m.Moves? ==> CallerWrites(s, me, m.sh)
  }

  lemma RequestWrites(s: State, me: Caller, c: nat, k: Choice)
    requires me.pc.Request?
    ensures Writes(s, me, RequestStep(s.sh, me, c, k))
  {
    hide OutsideEffect, HoldsLifecycle;
  }

  lemma CallWrites(s: State, me: Caller, c: nat, k: Choice)
    requires me.pc.Call?
    ensures Writes(s, me, CallStep(s.sh, me, c, k))
  {
    hide OutsideEffect, HoldsLifecycle;
  }

  lemma AwaitWrites(s: State, me: Caller, c: nat, k: Choice)
    requires me.pc.Await?
    ensures Writes(s, me, AwaitStep(s.sh, me, c, AliveWorkers(s.workers), k))
  {
    hide OutsideEffect, HoldsLifecycle;
  }

  lemma GuardWrites(s: State, me: Caller, c: nat, k: Choice)
    requires me.pc.Guard?
    ensures Writes(s, me, GuardStep(s.sh, me))
  {
    hide OutsideEffect, LocksFollow;
  }

  lemma BetweenWrites(s: State, me: Caller, c: nat, k: Choice)
    requires me.pc.Between?
    ensures Writes(s, me, BetweenStep(s.sh, me, c, AliveWorkers(s.workers), k))
  {
    hide LocksFollow, FieldsFollow;
  }

  lemma RecheckWrites(s: State, me: Caller, c: nat, k: Choice)
    requires me.pc == Stop(RecheckReady) || me.pc == Stop(RecheckBroken)
    ensures Writes(s, me, StopStep(s.sh, me, AliveWorkers(s.workers)))
  {
    hide FieldsFollow, HoldsLifecycle;
  }

  lemma StoppingWrites(s: State, me: Caller, c: nat, k: Choice)
    requires me.pc == Stop(RaiseShutdown) || me.pc == Stop(DropRefs) || me.pc == Stop(LowerReady)
    ensures Writes(s, me, StopStep(s.sh, me, AliveWorkers(s.workers)))
  {
    hide FieldsFollow, HoldsLifecycle;
  }

  lemma ForgettingWrites(s: State, me: Caller, c: nat, k: Choice)
    requires me.pc == Stop(ForgetRefs)
    ensures Writes(s, me, StopStep(s.sh, me, AliveWorkers(s.workers)))
  {
    hide FieldsFollow, HoldsLifecycle;
  }

  lemma StopWrites(s: State, me: Caller, c: nat, k: Choice)
    requires me.pc.Stop?
    ensures Writes(s, me, StopStep(s.sh, me, AliveWorkers(s.workers)))
  {
    hide StopStep, Writes;
    match me.pc.stop
    case RecheckReady | RecheckBroken => RecheckWrites(s, me, c, k);
    case ForgetRefs => ForgettingWrites(s, me, c, k);
    case _ => StoppingWrites(s, me, c, k);
  }

  lemma ResetWrites(s: State, me: Caller, c: nat, k: Choice)
    requires me.pc == Restart(LowerShutdown) || me.pc == Restart(LowerReadyAgain) || me.pc == Restart(ForgetDead)
    ensures Writes(s, me, RestartStep(s.sh, me, AliveWorkers(s.workers), |s.workers|))
  {
    hide FieldsFollow;
  }

  lemma DecisionWrites(s: State, me: Caller, c: nat, k: Choice)
    requires me.pc == Restart(DecideStart) || me.pc == Restart(ResetErrors)
    ensures Writes(s, me, RestartStep(s.sh, me, AliveWorkers(s.workers), |s.workers|))
  {
    hide FieldsFollow;
  }

  lemma SpawnWrites(s: State, me: Caller, c: nat, k: Choice)
    requires me.pc == Restart(CreateThread) || me.pc == Restart(StartThread)
    ensures Writes(s, me, RestartStep(s.sh, me, AliveWorkers(s.workers), |s.workers|))
  {
    hide FieldsFollow;
  }

  lemma RestartWrites(s: State, me: Caller, c: nat, k: Choice)
    requires me.pc.Restart?
    ensures Writes(s, me, RestartStep(s.sh, me, AliveWorkers(s.workers), |s.workers|))
  {
    hide RestartStep, Writes;
    match me.pc.restart
    case LowerShutdown | LowerReadyAgain | ForgetDead => ResetWrites(s, me, c, k);
    case DecideStart | ResetErrors => DecisionWrites(s, me, c, k);
    case CreateThread | StartThread => SpawnWrites(s, me, c, k);
  }

  lemma CallersWriteExactly(s: State, s': State, c: nat, k: Choice)
    requires Steps(s, s', c, k)
    ensures CallerWrites(s, s.callers[c], s'.sh)
  {
    hide RequestStep, CallStep, AwaitStep, GuardStep, BetweenStep, StopStep, RestartStep;
    hide CallerWrites, LocksFollow, FieldsFollow, OutsideEffect, Spawned;
    var me := s.callers[c];
    match me.pc
    case Request(_) => RequestWrites(s, me, c, k);
    case Call(_) => CallWrites(s, me, c, k);
    case Await(_) => AwaitWrites(s, me, c, k);
    case Guard(_) => GuardWrites(s, me, c, k);
    case Between(_) => BetweenWrites(s, me, c, k);
    case Stop(_) => StopWrites(s, me, c, k);
    case Restart(_) => RestartWrites(s, me, c, k);
  }

  /** The same of a worker's step. */
  predicate WorkerWrites(sh: Shared, pc: WorkerPc, w: nat, after: Shared) {
    && after.shutdown == sh.shutdown
    && after.ready == (if pc.RaiseReady? then true else if pc.ClearReady? then false else sh.ready)
    && after.broken == (if pc.RecordBroken? then true else if pc.ClearBroken? then false else sh.broken)
    && after.connectError == (sh.connectError || pc.RecordError?)
    && after.generation == sh.generation + (if pc.BumpGeneration? then 1 else 0)
    && after.session == (if pc.EnterPublish? then Is(w) else if pc.LeaveSession? || pc.ClearSession? then Nobody else sh.session)
    && after.loop == (if pc.PublishLoop? then Is(w) else if pc.EnterForget? && sh.loop == Is(w) then Nobody else sh.loop)
    && after.thread == (if pc.ForgetSelf? && sh.thread == Is(w) then Nobody else sh.thread)
  }

  /** Where a worker that goes on from each of its decisions goes: it connects or fails; it serves until it
      fails or sees shutdown, and then leaves its session unless that fails; and it records a failure exactly
      if shutdown was not requested. */
  predicate WorkerDecides(sh: Shared, pc: WorkerPc, k: Choice, next: WorkerPc) {
    && (pc.Connecting? ==> next == if k.Succeed? then EnterPublish else Caught)
    && (pc.Serving? ==> next == if k.Fail? then Caught else if sh.shutdown then LeaveSession else Serving)
    && (pc.LeaveSession? ==> next == if k.Fail? then Caught else ClearSession)
    && (pc.Caught? ==> next == if sh.shutdown then ClearSession else RecordError)
    && (next.ClearSession? && !pc.Caught? ==> pc.LeaveSession? || pc.RecordBroken?)
  }

  predicate Works(sh: Shared, pc: WorkerPc, w: nat, k: Choice, m: WorkerMove) {
    m.Turns? ==> WorkerWrites(sh, pc, w, m.sh) && WorkerDecides(sh, pc, k, m.pc)
  }

  lemma ConnectingWorks(sh: Shared, pc: WorkerPc, w: nat, k: Choice)
    requires Unconnected(pc) || pc.ClearBroken? || pc.RaiseReady?
    ensures Works(sh, pc, w, k, WorkerStep(sh, pc, w, k))
  {
    hide WorkerLocksFollow, WorkerFieldsFollow;
  }

  lemma ServingWorks(sh: Shared, pc: WorkerPc, w: nat, k: Choice)
    requires pc.Serving? || pc.LeaveSession? || pc.Caught? || pc.RecordError? || pc.RecordBroken?
    ensures Works(sh, pc, w, k, WorkerStep(sh, pc, w, k))
  {
    hide WorkerLocksFollow, WorkerFieldsFollow;
  }

  lemma CleanupWorks(sh: Shared, pc: WorkerPc, w: nat, k: Choice)
    requires pc.ClearSession? || pc.ClearReady? || pc.DrainLoop? || pc.EnterForget? || pc.ForgetSelf? || pc.Exiting? || pc.Dead?
    ensures Works(sh, pc, w, k, WorkerStep(sh, pc, w, k))
  {
    hide WorkerLocksFollow, WorkerFieldsFollow;
  }

  lemma WorkersWriteExactly(s: State, s': State, w: nat, k: Choice)
    requires w < |s.workers| == |s'.workers| && Step(s, Background(w, k)) == Next(s')
    ensures WorkerWrites(s.sh, s.workers[w].pc, w, s'.sh)
    ensures WorkerDecides(s.sh, s.workers[w].pc, k, s'.workers[w].pc)
  {
    hide WorkerStep, WorkerLocksFollow, WorkerFieldsFollow, WorkerWrites, WorkerDecides;
    var pc := s.workers[w].pc;
    if Unconnected(pc) || pc.ClearBroken? || pc.RaiseReady? {
      ConnectingWorks(s.sh, pc, w, k);
    } else if pc.Serving? || pc.LeaveSession? || pc.Caught? || pc.RecordError? || pc.RecordBroken? {
      ServingWorks(s.sh, pc, w, k);
    } else {
      CleanupWorks(s.sh, pc, w, k);
    }
  }
}
