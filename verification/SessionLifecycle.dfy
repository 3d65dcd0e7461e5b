/** The persistent MCP session of artpm_agent/core/mcp_client_stdio.py as a step system.

    Any number of calling threads and background workers share the client's fields under two
    locks. A step is one shared access of one thread: a critical section is entered together with
    its first access and left together with its last one, so every unguarded access of another
    thread can still fall between any two accesses of a section. */
module SessionLifecycle {
  import opened Common

  /** What a calling thread is running: `_ensure_connected` or `close`. */
  datatype Op = Ensure | Close

  /** Where a calling thread stands, named after the next thing it does and sorted by the locks it
      holds: none (`Request`, `Call`, `Await`), `_lock` (`Guard`), `_lifecycle_lock` (`Between`) or both
      (`Stop`, `Restart`). */
  datatype CallerPc =
    | Request(request: RequestPc) | Call(call: CallPc) | Await(await: AwaitPc) | Guard(guard: GuardPc)
    | Between(between: BetweenPc) | Stop(stop: StopPc) | Restart(restart: RestartPc)

  datatype RequestPc = Idle | CheckShutdown | CheckReady | CheckBroken | EnterLifecycle

  datatype CallPc = EnterReadGeneration | Calling | EnterFailure

  datatype AwaitPc = AwaitReady | EnterPoll | PollAlive | ExpireBroken | ExpireError

  datatype GuardPc = PollBroken | MarkFailure

  datatype BetweenPc = EnterStop | Join | EnterJoinFailed | EnterRestart

  datatype StopPc = RecheckReady | RecheckBroken | RaiseShutdown | DropRefs | LowerReady | ForgetRefs

  datatype RestartPc =
    | LowerShutdown | LowerReadyAgain | ForgetDead
    | DecideStart | ResetErrors | CreateThread | StartThread

  /** A calling thread with its local variables. `retry` tells the second `_ensure_connected` of a
      request from the first; `g` is the generation the request was sent under. */
  datatype Caller = Caller(pc: CallerPc, op: Op, force: bool, retry: bool, g: nat,
                           t: Ref, sawThread: Ref, sawError: bool, sawBroken: bool)

  /** Where a background worker stands. */
  datatype WorkerPc =
    | Created                                        // Thread object assigned, not started
    | PublishLoop | Connecting
    | EnterPublish | BumpGeneration | ClearBroken | RaiseReady
    | Serving | LeaveSession
    | Caught | RecordError | RecordBroken
    | ClearSession | ClearReady                      // unguarded finally of _keep_alive
    | DrainLoop | EnterForget | ForgetSelf
    | Exiting | Dead

  /** A worker; `gen` is the generation its connect produced, 0 before that. */
  datatype Worker = Worker(pc: WorkerPc, gen: nat)

  /** A reference to a thread, or Python's `None`. */
  datatype Ref = Nobody | Is(id: nat)

  datatype Lock = Free | ByCaller(c: nat) | ByWorker(w: nat)

  /** The client's fields. */
  datatype Shared = Shared(
    lifecycle: Ref, lock: Lock,
    thread: Ref, loop: Ref, session: Ref,
    ready: bool, shutdown: bool, broken: bool, connectError: bool, generation: nat)

  datatype State = State(sh: Shared, callers: seq<Caller>, workers: seq<Worker>)

  /** Resolves what the environment decides: requests, transport results, expiring timeouts. */
  datatype Choice = Go | BeginCall | BeginClose | Succeed | Fail | Expire

  datatype Event = Client(c: nat, choice: Choice) | Background(w: nat, choice: Choice)

  datatype CallerMove = Waits | Moves(sh: Shared, me: Caller)

  datatype WorkerMove = Stays | Turns(sh: Shared, pc: WorkerPc)

  function Start(n: nat): State {
    State(Shared(Nobody, Free, Nobody, Nobody, Nobody, false, false, false, false, 0),
          seq(n, i => Caller(Request(Idle), Ensure, false, false, 0, Nobody, Nobody, false, false)), [])
  }

  /** Thread.is_alive. */
  predicate AlivePc(pc: WorkerPc) {
    !pc.Created? && !pc.Dead?
  }

  function AliveWorkers(workers: seq<Worker>): set<nat> {
    set w: nat | w < |workers| && AlivePc(workers[w].pc)
  }

  predicate IsAlive(alive: set<nat>, t: Ref) {
    t.Is? && t.id in alive
  }

  // ---------------------------------------------------------------- one step

  predicate HoldsLifecycle(pc: CallerPc) {
    pc.Between? || pc.Stop? || pc.Restart?
  }

  /** Where `_ensure_connected` returns to in `_acall` / `_list_sync`. */
  function Back(me: Caller, connected: bool): CallerPc {
    if connected && !me.retry then Call(EnterReadGeneration) else Request(Idle)
  }

  /** Sending a request and the unguarded checks of `_ensure_connected`. */
  function RequestStep(sh: Shared, me: Caller, c: nat, k: Choice): (m: CallerMove)
    requires me.pc.Request?
    ensures m.Moves? ==>
      && !m.me.pc.Stop? && !m.me.pc.Restart? && !m.me.pc.Guard? && m.sh.lock == sh.lock
      && if m.me.pc.Between? then sh.lifecycle.Nobody? && m.sh.lifecycle == Is(c) else m.sh.lifecycle == sh.lifecycle
    ensures OutsideEffect(sh, me, m)
  {
    match me.pc.request
    case Idle =>
      if k.BeginCall? then Moves(sh, me.(pc := Request(CheckShutdown), op := Ensure, force := false, retry := false))
      else if k.BeginClose? then Moves(sh, me.(pc := Request(EnterLifecycle), op := Close))
      else Waits
    case CheckShutdown =>
      if sh.shutdown then Moves(sh, me.(pc := Back(me, false)))
      else Moves(sh, me.(pc := Request(if me.force then EnterLifecycle else CheckReady)))
    case CheckReady => Moves(sh, me.(pc := Request(if sh.ready then CheckBroken else EnterLifecycle)))
    case CheckBroken =>
      if !sh.broken then Moves(sh, me.(pc := Back(me, true))) else Moves(sh, me.(pc := Request(EnterLifecycle)))
    case EnterLifecycle =>
      if sh.lifecycle.Is? then Waits else Moves(sh.(lifecycle := Is(c)), me.(pc := Between(EnterStop)))
  }

  /** Sending a request over the session, and its failure. */
  function CallStep(sh: Shared, me: Caller, c: nat, k: Choice): (m: CallerMove)
    requires me.pc.Call?
    ensures m.Moves? ==>
      && !HoldsLifecycle(m.me.pc) && m.sh.lifecycle == sh.lifecycle
      && if m.me.pc.Guard? then sh.lock.Free? && m.sh.lock == ByCaller(c) else m.sh.lock == sh.lock
    ensures OutsideEffect(sh, me, m)
  {
    match me.pc.call
    case EnterReadGeneration =>
      if !sh.lock.Free? then Waits else Moves(sh, me.(pc := Call(Calling), g := sh.generation))
    case Calling =>
      if k.Succeed? then Moves(sh, me.(pc := Request(Idle)))
      else if k.Fail? then Moves(sh, me.(pc := Call(EnterFailure)))
      else Waits
    case EnterFailure =>
      if !sh.lock.Free? then Waits
      else if sh.generation == me.g then Moves(sh.(lock := ByCaller(c)), me.(pc := Guard(MarkFailure)))
      else Moves(sh, me.(pc := Request(CheckShutdown), op := Ensure, force := false, retry := true))
  }

  /** Waiting for `_ready` outside both locks; `alive` are the threads alive now. */
  function AwaitStep(sh: Shared, me: Caller, c: nat, alive: set<nat>, k: Choice): (m: CallerMove)
    requires me.pc.Await?
    ensures m.Moves? ==>
      && !HoldsLifecycle(m.me.pc) && m.sh.lifecycle == sh.lifecycle
      && if m.me.pc.Guard? then sh.lock.Free? && m.sh.lock == ByCaller(c) else m.sh.lock == sh.lock
    ensures OutsideEffect(sh, me, m)
  {
    match me.pc.await
    case AwaitReady =>
      Moves(sh, me.(pc := if k.Expire? then Await(ExpireBroken) else if sh.ready then Back(me, true) else Await(EnterPoll)))
    case EnterPoll =>
      if !sh.lock.Free? then Waits
      else Moves(sh.(lock := ByCaller(c)),
                 me.(pc := Guard(PollBroken), sawThread := sh.thread, sawError := sh.connectError))
    case PollAlive =>
      var failed := (me.sawError || me.sawBroken) && !IsAlive(alive, me.sawThread);
      Moves(sh, me.(pc := if failed then Back(me, false) else Await(AwaitReady)))
    case ExpireBroken => Moves(sh.(broken := true), me.(pc := Await(ExpireError)))
    case ExpireError => Moves(sh.(connectError := true), me.(pc := Back(me, false)))
  }

  /** Short sections under `_lock` alone. */
  function GuardStep(sh: Shared, me: Caller): (m: CallerMove)
    requires me.pc.Guard?
    ensures forall c: nat :: LocksFollow(sh, me, c, m)
    ensures OutsideEffect(sh, me, m)
  {
    match me.pc.guard
    case PollBroken => Moves(sh.(lock := Free), me.(pc := Await(PollAlive), sawBroken := sh.broken))
    case MarkFailure =>
      Moves(sh.(broken := true, session := Nobody, lock := Free),
            me.(pc := Request(CheckShutdown), op := Ensure, force := true, retry := true))
  }

  /** Holding the lifecycle lock alone: entering a section, joining. */
  function BetweenStep(sh: Shared, me: Caller, c: nat, alive: set<nat>, k: Choice): (m: CallerMove)
    requires me.pc.Between?
    ensures LocksFollow(sh, me, c, m)
    ensures FieldsFollow(sh, m, None)
  {
    match me.pc.between
    case EnterStop =>
      if !sh.lock.Free? then Waits
      else Moves(sh.(lock := ByCaller(c)),
                 me.(pc := Stop(if me.op.Ensure? && !me.force then RecheckReady else RaiseShutdown)))
    case Join =>
      if !IsAlive(alive, me.t) then Moves(sh, me.(pc := Between(EnterRestart)))
      else if k.Expire? then Moves(sh, me.(pc := if me.op.Ensure? then Between(EnterJoinFailed) else Between(EnterRestart)))
      else Waits
    case EnterJoinFailed =>
      if !sh.lock.Free? then Waits else Moves(sh.(broken := true, lifecycle := Nobody), me.(pc := Back(me, false)))
    case EnterRestart =>
      if !sh.lock.Free? then Waits
      else Moves(sh.(lock := ByCaller(c)),
                 me.(pc := if me.op.Close? then Stop(ForgetRefs) else if me.force then Restart(LowerShutdown) else Restart(DecideStart)))
  }

  /** The first section, with `_stop_background_locked`, and the end of `close`. */
  function StopStep(sh: Shared, me: Caller, alive: set<nat>): (m: CallerMove)
    requires me.pc.Stop?
    ensures m.Moves? ==>
      && !m.me.pc.Restart? && !m.me.pc.Guard?
      && (if HoldsLifecycle(m.me.pc) then m.sh.lifecycle == sh.lifecycle else m.sh.lifecycle.Nobody?)
      && if m.me.pc.Stop? then m.sh.lock == sh.lock else m.sh.lock.Free?
    ensures FieldsFollow(sh, m, None)
  {
    match me.pc.stop
    case RecheckReady =>
      if sh.ready then Moves(sh, me.(pc := Stop(RecheckBroken))) else Moves(sh.(lock := Free), me.(pc := Between(EnterRestart)))
    case RecheckBroken =>
      if !sh.broken then Moves(sh.(lock := Free, lifecycle := Nobody), me.(pc := Back(me, true)))
      else Moves(sh.(lock := Free), me.(pc := Between(EnterRestart)))
    case RaiseShutdown => Moves(sh.(shutdown := true), me.(pc := Stop(DropRefs)))
    case DropRefs => Moves(sh.(session := Nobody, loop := Nobody), me.(pc := Stop(LowerReady), t := sh.thread))
    case LowerReady => Moves(sh.(ready := false, lock := Free), me.(pc := Between(Join)))
    case ForgetRefs =>
      Moves(if !IsAlive(alive, me.t) && (me.t.Nobody? || sh.thread == me.t)
            then sh.(session := Nobody, loop := Nobody, thread := Nobody, ready := false, lock := Free, lifecycle := Nobody)
            else sh.(lock := Free, lifecycle := Nobody),
            me.(pc := Request(Idle)))
  }

  /** The second section: the forced reset and the start of a new worker `newId`. */
  function RestartStep(sh: Shared, me: Caller, alive: set<nat>, newId: nat): (m: CallerMove)
    requires me.pc.Restart?
    ensures m.Moves? ==>
      && (m.me.pc.Restart? || m.me.pc.Await?)
      && if m.me.pc.Restart? then m.sh.lifecycle == sh.lifecycle && m.sh.lock == sh.lock
         else m.sh.lifecycle.Nobody? && m.sh.lock.Free?
    ensures FieldsFollow(sh, m, if me.pc.restart.CreateThread? then Some(newId) else None)
  {
    match me.pc.restart
    case LowerShutdown => Moves(sh.(shutdown := false), me.(pc := Restart(LowerReadyAgain)))
    case LowerReadyAgain => Moves(sh.(ready := false), me.(pc := Restart(ForgetDead)))
    case ForgetDead =>
      Moves(if me.t.Is? && sh.thread == me.t && !IsAlive(alive, me.t) then sh.(thread := Nobody) else sh,
            me.(pc := Restart(DecideStart)))
    case DecideStart =>
      if !IsAlive(alive, sh.thread) then Moves(sh, me.(pc := Restart(ResetErrors)))
      else Moves(sh.(lock := Free, lifecycle := Nobody), me.(pc := Await(AwaitReady)))
    case ResetErrors => Moves(sh.(broken := false, connectError := false), me.(pc := Restart(CreateThread)))
    case CreateThread => Moves(sh.(thread := Is(newId)), me.(pc := Restart(StartThread)))
    case StartThread => Moves(sh.(lock := Free, lifecycle := Nobody), me.(pc := Await(AwaitReady)))
  }

  /** One step of calling thread `c`; `Waits` means that it cannot go on yet. */
  function CallerStep(sh: Shared, me: Caller, c: nat, alive: set<nat>, newId: nat, k: Choice): (m: CallerMove)
    ensures LocksFollow(sh, me, c, m)
    ensures FieldsFollow(sh, m, if me.pc.Restart? && me.pc.restart.CreateThread? then Some(newId) else None)
  {
    match me.pc
    case Request(_) => RequestStep(sh, me, c, k)
    case Call(_) => CallStep(sh, me, c, k)
    case Await(_) => AwaitStep(sh, me, c, alive, k)
    case Guard(_) => GuardStep(sh, me)
    case Between(_) => BetweenStep(sh, me, c, alive, k)
    case Stop(_) => StopStep(sh, me, alive)
    case Restart(_) => RestartStep(sh, me, alive, newId)
  }

  /** One step of background worker `w`. */
  function WorkerStep(sh: Shared, pc: WorkerPc, w: nat, k: Choice): (m: WorkerMove)
    ensures WorkerLocksFollow(sh, pc, w, m)
    ensures WorkerFieldsFollow(sh, pc, w, m)
  {
    match pc
    case Created => Stays
    case PublishLoop => if !sh.lock.Free? then Stays else Turns(sh.(loop := Is(w)), Connecting)
    case Connecting =>
      if k.Succeed? then Turns(sh, EnterPublish) else if k.Fail? then Turns(sh, Caught) else Stays
    case EnterPublish =>
      if !sh.lock.Free? then Stays
      else Turns(sh.(lock := ByWorker(w), session := Is(w)), BumpGeneration)
    case BumpGeneration => Turns(sh.(generation := sh.generation + 1), ClearBroken)
    case ClearBroken => Turns(sh.(broken := false), RaiseReady)
    case RaiseReady => Turns(sh.(ready := true, lock := Free), Serving)
    case Serving => Turns(sh, if k.Fail? then Caught else if sh.shutdown then LeaveSession else Serving)
    case LeaveSession => Turns(sh.(session := Nobody), if k.Fail? then Caught else ClearSession)
    case Caught => Turns(sh, if sh.shutdown then ClearSession else RecordError)
    case RecordError => Turns(sh.(connectError := true), RecordBroken)
    case RecordBroken => Turns(sh.(broken := true), ClearSession)
    case ClearSession => Turns(sh.(session := Nobody), ClearReady)
    case ClearReady => Turns(sh.(ready := false), DrainLoop)
    case DrainLoop => Turns(sh, EnterForget)
    case EnterForget =>
      if !sh.lock.Free? then Stays
      else Turns(sh.(lock := ByWorker(w), loop := if sh.loop == Is(w) then Nobody else sh.loop), ForgetSelf)
    case ForgetSelf =>
      Turns(sh.(thread := if sh.thread == Is(w) then Nobody else sh.thread, lock := Free), Exiting)
    case Exiting => Turns(sh, Dead)
    case Dead => Stays
  }

  /** What a caller's step does to the thread objects. */
  function Spawned(workers: seq<Worker>, pc: CallerPc, thread: Ref): seq<Worker> {
    if pc.Restart? && pc.restart.CreateThread? then workers + [Worker(Created, 0)]
    else if pc.Restart? && pc.restart.StartThread? && thread.Is? && thread.id < |workers| then
      workers[thread.id := workers[thread.id].(pc := PublishLoop)]
    else workers
  }

  datatype Outcome = Blocked | Next(state: State)

  function CallerEvent(s: State, c: nat, k: Choice): Outcome
    requires c < |s.callers|
  {
    match CallerStep(s.sh, s.callers[c], c, AliveWorkers(s.workers), |s.workers|, k)
    case Waits => Blocked
    case Moves(sh, me) =>
      Next(State(sh, s.callers[c := me], Spawned(s.workers, s.callers[c].pc, s.sh.thread)))
  }

  function WorkerEvent(s: State, w: nat, k: Choice): Outcome
    requires w < |s.workers|
  {
    match WorkerStep(s.sh, s.workers[w].pc, w, k)
    case Stays => Blocked
    case Turns(sh, pc) =>
      var gen := if s.workers[w].pc.BumpGeneration? then sh.generation else s.workers[w].gen;
      Next(State(sh, s.callers, s.workers[w := Worker(pc, gen)]))
  }

  function Step(s: State, e: Event): Outcome {
    match e
    case Client(c, k) => if c < |s.callers| then CallerEvent(s, c, k) else Blocked
    case Background(w, k) => if w < |s.workers| then WorkerEvent(s, w, k) else Blocked
  }

  /** The state after a run of events, if each of them was possible. */
  function Run(s: State, events: seq<Event>): Outcome
    decreases |events|
  {
    if events == [] then Next(s)
    else match Run(s, events[..|events| - 1])
         case Blocked => Blocked
         case Next(last) => Step(last, events[|events| - 1])
  }

  // ---------------------------------------------------------------- invariant

  predicate HoldsLock(pc: CallerPc) {
    pc.Guard? || pc.Stop? || pc.Restart?
  }

  predicate WorkerHoldsLock(pc: WorkerPc) {
    pc.BumpGeneration? || pc.ClearBroken? || pc.RaiseReady? || pc.ForgetSelf?
  }

  /** Started and not past its final cleanup. */
  predicate Unfinished(pc: WorkerPc) {
    !pc.Created? && !pc.Exiting? && !pc.Dead?
  }

  /** Where a worker may still be seen as ready. */
  predicate MayBeReady(pc: WorkerPc) {
    match pc
    case Serving | LeaveSession | Caught | RecordError | RecordBroken | ClearSession | ClearReady => true
    case _ => false
  }

  /** Where a worker may still be published as the session. */
  predicate MayBeSession(pc: WorkerPc) {
    match pc
    case BumpGeneration | ClearBroken | RaiseReady | Serving | LeaveSession | Caught
      | RecordError | RecordBroken | ClearSession => true
    case _ => false
  }

  /** What the lifecycle owner may rely on; `cur` is where the current thread's worker stands
      (`Dead` without one). An owner outside the lifecycle section stands for "no owner". */
  predicate OwnerFacts(sh: Shared, cur: WorkerPc, owner: Caller) {
    match owner.pc
    case Between(at) =>
      !cur.Created? && (match at
        case EnterStop => true
        case Join => Stopped(sh, cur, owner)
        case EnterJoinFailed => Stopped(sh, cur, owner) && owner.op.Ensure?
        case EnterRestart =>
          && (owner.op.Close? || owner.force ==> Stopped(sh, cur, owner))
          && (owner.op.Ensure? && owner.force ==> Gone(cur)))
    case Stop(at) =>
      !cur.Created? && (match at
        case RecheckReady | RecheckBroken => owner.op.Ensure? && !owner.force
        case RaiseShutdown => true
        case DropRefs => sh.shutdown
        case LowerReady => Stopped(sh, cur, owner)
        case ForgetRefs => Stopped(sh, cur, owner) && owner.op.Close?)
    case Restart(at) =>
      owner.op.Ensure? && (match at
        case LowerShutdown => sh.shutdown && Gone(cur)
        case LowerReadyAgain | ForgetDead | ResetErrors | CreateThread => Gone(cur)
        case DecideStart => !cur.Created?
        case StartThread => cur.Created?)
    case _ => !cur.Created?
  }

  /** Shutdown was requested, and the thread to join is the unfinished worker, if there is one. */
  predicate Stopped(sh: Shared, cur: WorkerPc, owner: Caller) {
    sh.shutdown && (Unfinished(cur) ==> owner.t == sh.thread)
  }

  predicate Gone(cur: WorkerPc) {
    cur.Exiting? || cur.Dead?
  }

  /** What the fields say about the current thread's worker. */
  predicate SessionFacts(sh: Shared, cur: WorkerPc) {
    && (sh.thread.Nobody? ==> cur.Dead?)
    && (sh.ready ==> MayBeReady(cur))
    && (sh.session.Is? ==> sh.session == sh.thread && MayBeSession(cur))
    && (WorkerHoldsLock(cur) && !cur.ForgetSelf? ==> sh.session == sh.thread)
    && (cur.LeaveSession? ==> sh.shutdown)
    && ((cur.ClearSession? || cur.ClearReady?) && sh.ready ==> sh.shutdown || sh.broken)
    && (sh.ready && sh.session.Nobody? ==> sh.shutdown || sh.broken)
  }

  function NextCur(cur: WorkerPc, me: Caller, sh: Shared): WorkerPc {
    if sh.thread.Nobody? then Dead
    else if (me.pc.Restart? && me.pc.restart.CreateThread?) then Created
    else if (me.pc.Restart? && me.pc.restart.StartThread?) then PublishLoop
    else cur
  }

  // ---------------------------------------------------------------- one step keeps the facts

  /** The facts hold, and `me` is the lifecycle owner about to step. */
  predicate OwnerMay(sh: Shared, cur: WorkerPc, me: Caller, alive: set<nat>) {
    && OwnerFacts(sh, cur, me) && SessionFacts(sh, cur)
    && (sh.thread.Is? ==> (sh.thread.id in alive <==> AlivePc(cur)))
    && (HoldsLock(me.pc) || sh.lock.Free? ==> !WorkerHoldsLock(cur))
  }

  /** The facts still hold, and `_thread` was replaced or forgotten only when its worker was past the
      final cleanup. */
  predicate OwnerKept(sh: Shared, cur: WorkerPc, me: Caller, m: CallerMove) {
    m.Moves? ==>
      && (m.sh.thread != sh.thread ==> Gone(cur))
      && OwnerFacts(m.sh, NextCur(cur, me, m.sh), m.me) && SessionFacts(m.sh, NextCur(cur, me, m.sh))
  }

  lemma JoinKeeps(sh: Shared, cur: WorkerPc, me: Caller, c: nat, alive: set<nat>, k: Choice)
    requires OwnerMay(sh, cur, me, alive)
    requires me.pc.Between? && (me.pc.between.EnterStop? || me.pc.between.Join?)
    ensures OwnerKept(sh, cur, me, BetweenStep(sh, me, c, alive, k))
  {
    hide LocksFollow, FieldsFollow, MayBeReady, MayBeSession, WorkerHoldsLock, HoldsLifecycle;
  }

  lemma EnterRestartKeeps(sh: Shared, cur: WorkerPc, me: Caller, c: nat, alive: set<nat>, k: Choice)
    requires OwnerMay(sh, cur, me, alive)
    requires me.pc.Between? && (me.pc.between.EnterJoinFailed? || me.pc.between.EnterRestart?)
    ensures OwnerKept(sh, cur, me, BetweenStep(sh, me, c, alive, k))
  {
  }

  lemma RecheckKeeps(sh: Shared, cur: WorkerPc, me: Caller, alive: set<nat>)
    requires OwnerMay(sh, cur, me, alive)
    requires me.pc.Stop? && me.pc.stop.RecheckBroken?
    ensures OwnerKept(sh, cur, me, StopStep(sh, me, alive))
  {
    hide FieldsFollow, Stopped, Gone, MayBeReady, MayBeSession, WorkerHoldsLock, AlivePc, IsAlive, HoldsLifecycle;
  }

  lemma RequestStopKeeps(sh: Shared, cur: WorkerPc, me: Caller, alive: set<nat>)
    requires OwnerMay(sh, cur, me, alive)
    requires me.pc.Stop? && (me.pc.stop.RaiseShutdown? || me.pc.stop.DropRefs? || me.pc.stop.LowerReady?)
    ensures OwnerKept(sh, cur, me, StopStep(sh, me, alive))
  {
  }

  lemma RecheckReadyKeeps(sh: Shared, cur: WorkerPc, me: Caller, alive: set<nat>)
    requires OwnerMay(sh, cur, me, alive)
    requires me.pc.Stop? && me.pc.stop.RecheckReady?
    ensures OwnerKept(sh, cur, me, StopStep(sh, me, alive))
  {
    hide FieldsFollow, Stopped, Gone, MayBeReady, MayBeSession, WorkerHoldsLock, AlivePc, IsAlive, HoldsLifecycle;
  }

  lemma ForgetKeeps(sh: Shared, cur: WorkerPc, me: Caller, alive: set<nat>)
    requires OwnerMay(sh, cur, me, alive)
    requires me.pc.Stop? && me.pc.stop.ForgetRefs?
    ensures OwnerKept(sh, cur, me, StopStep(sh, me, alive))
  {
  }

  lemma ResetKeeps(sh: Shared, cur: WorkerPc, me: Caller, alive: set<nat>, newId: nat)
    requires OwnerMay(sh, cur, me, alive)
    requires me.pc.Restart? && (me.pc.restart.LowerShutdown? || me.pc.restart.LowerReadyAgain? || me.pc.restart.ForgetDead?)
    ensures OwnerKept(sh, cur, me, RestartStep(sh, me, alive, newId))
  {
  }

  lemma DecideKeeps(sh: Shared, cur: WorkerPc, me: Caller, alive: set<nat>, newId: nat)
    requires OwnerMay(sh, cur, me, alive)
    requires me.pc.Restart? && (me.pc.restart.DecideStart? || me.pc.restart.ResetErrors?)
    ensures OwnerKept(sh, cur, me, RestartStep(sh, me, alive, newId))
  {
  }

  lemma SpawnKeeps(sh: Shared, cur: WorkerPc, me: Caller, alive: set<nat>, newId: nat)
    requires OwnerMay(sh, cur, me, alive)
    requires me.pc.Restart? && (me.pc.restart.CreateThread? || me.pc.restart.StartThread?)
    ensures OwnerKept(sh, cur, me, RestartStep(sh, me, alive, newId))
  {
  }

  lemma OwnerStepKeeps(sh: Shared, cur: WorkerPc, me: Caller, c: nat, alive: set<nat>, newId: nat, k: Choice)
    requires OwnerMay(sh, cur, me, alive) && HoldsLifecycle(me.pc)
    ensures OwnerKept(sh, cur, me, CallerStep(sh, me, c, alive, newId, k))
  {
    match me.pc
    case Between(at) =>
      if at.EnterStop? || at.Join? { JoinKeeps(sh, cur, me, c, alive, k); }
      else { EnterRestartKeeps(sh, cur, me, c, alive, k); }
    case Stop(at) =>
      if at.RecheckReady? { RecheckReadyKeeps(sh, cur, me, alive); }
      else if at.ForgetRefs? { ForgetKeeps(sh, cur, me, alive); }
      else if !at.RecheckBroken? { RequestStopKeeps(sh, cur, me, alive); }
      else { RecheckKeeps(sh, cur, me, alive); }
    case Restart(at) =>
      if at.LowerShutdown? || at.LowerReadyAgain? || at.ForgetDead? { ResetKeeps(sh, cur, me, alive, newId); }
      else if at.DecideStart? || at.ResetErrors? { DecideKeeps(sh, cur, me, alive, newId); }
      else { SpawnKeeps(sh, cur, me, alive, newId); }
  }

  /** All a caller outside the lifecycle section does to the fields: it never touches the thread,
      `_ready` or `_shutdown`, never lowers `_broken`, and drops the session only as broken. */
  predicate OutsideEffect(sh: Shared, me: Caller, m: CallerMove) {
    m.Moves? ==>
      && m.sh.thread == sh.thread && m.sh.ready == sh.ready && m.sh.shutdown == sh.shutdown
      && m.sh.generation == sh.generation
      && (sh.broken ==> m.sh.broken)
      && (m.sh.session == sh.session || (m.sh.session.Nobody? && m.sh.broken && HoldsLock(me.pc)))
      && (HoldsLifecycle(m.me.pc) ==> m.me.pc.Between? && m.me.pc.between.EnterStop? && sh.lifecycle.Nobody?)
  }

  lemma OutsideFrame(sh: Shared, me: Caller, m: CallerMove, cur: WorkerPc, owner: Caller)
    requires OutsideEffect(sh, me, m) && m.Moves? && OwnerFacts(sh, cur, owner) && SessionFacts(sh, cur)
    requires HoldsLock(me.pc) ==> !WorkerHoldsLock(cur)
    ensures OwnerFacts(m.sh, cur, owner) && SessionFacts(m.sh, cur)
  {
  }

  lemma OutsideStepKeeps(sh: Shared, cur: WorkerPc, owner: Caller, me: Caller, c: nat, alive: set<nat>, newId: nat, k: Choice)
    requires OwnerFacts(sh, cur, owner) && SessionFacts(sh, cur) && !HoldsLifecycle(me.pc)
    requires HoldsLifecycle(owner.pc) <==> sh.lifecycle.Is?
    requires HoldsLock(me.pc) ==> !WorkerHoldsLock(cur)
    ensures var m := CallerStep(sh, me, c, alive, newId, k);
      m.Moves? ==> OwnerFacts(m.sh, cur, if HoldsLifecycle(m.me.pc) then m.me else owner) && SessionFacts(m.sh, cur)
  {
    var m := CallerStep(sh, me, c, alive, newId, k);
    if m.Moves? {
      assert OutsideEffect(sh, me, m);
      OutsideFrame(sh, me, m, cur, owner);
    }
  }

  predicate WorkerKept(owner: Caller, m: WorkerMove) {
    m.Turns? ==>
      var cur := if m.sh.thread.Nobody? then Dead else m.pc;
      OwnerFacts(m.sh, cur, owner) && SessionFacts(m.sh, cur)
  }

  predicate WorkerMay(sh: Shared, pc: WorkerPc, owner: Caller, w: nat) {
    && OwnerFacts(sh, pc, owner) && SessionFacts(sh, pc) && sh.thread == Is(w)
    && (HoldsLock(owner.pc) ==> !sh.lock.Free? && !WorkerHoldsLock(pc))
  }

  lemma ConnectKeeps(sh: Shared, pc: WorkerPc, owner: Caller, w: nat, k: Choice)
    requires WorkerMay(sh, pc, owner, w)
    requires pc.Created? || pc.PublishLoop? || pc.Connecting? || pc.EnterPublish? || pc.BumpGeneration? || pc.ClearBroken? || pc.RaiseReady?
    ensures WorkerKept(owner, WorkerStep(sh, pc, w, k))
  {
  }

  lemma ServeKeeps(sh: Shared, pc: WorkerPc, owner: Caller, w: nat, k: Choice)
    requires WorkerMay(sh, pc, owner, w)
    requires pc.Serving? || pc.LeaveSession? || pc.Caught? || pc.RecordError? || pc.RecordBroken?
    ensures WorkerKept(owner, WorkerStep(sh, pc, w, k))
  {
  }

  lemma CleanupKeeps(sh: Shared, pc: WorkerPc, owner: Caller, w: nat, k: Choice)
    requires WorkerMay(sh, pc, owner, w)
    requires pc.ClearSession? || pc.ClearReady? || pc.DrainLoop? || pc.EnterForget? || pc.ForgetSelf? || pc.Exiting? || pc.Dead?
    ensures WorkerKept(owner, WorkerStep(sh, pc, w, k))
  {
  }

  // ---------------------------------------------------------------- locks

  /** Entering or leaving a section takes or frees its lock, and nothing else does. */
  predicate LocksFollow(sh: Shared, me: Caller, c: nat, m: CallerMove) {
    m.Moves? ==>
      && (if HoldsLifecycle(m.me.pc) == HoldsLifecycle(me.pc) then m.sh.lifecycle == sh.lifecycle
          else if HoldsLifecycle(m.me.pc) then sh.lifecycle.Nobody? && m.sh.lifecycle == Is(c)
          else m.sh.lifecycle.Nobody?)
      && (if HoldsLock(m.me.pc) == HoldsLock(me.pc) then m.sh.lock == sh.lock
          else if HoldsLock(m.me.pc) then sh.lock.Free? && m.sh.lock == ByCaller(c)
          else m.sh.lock.Free?)
  }

  /** No caller connects; a thread is only forgotten, or set when it is created; a session is only dropped. */
  predicate FieldsFollow(sh: Shared, m: CallerMove, created: Option<nat>) {
    m.Moves? ==>
      && m.sh.generation == sh.generation
      && (m.sh.session == sh.session || m.sh.session.Nobody?)
      && if created.Some? then m.sh.thread == Is(created.value) else m.sh.thread == sh.thread || m.sh.thread.Nobody?
  }

  /** A worker connects once: it publishes its session, then counts the connect. */
  predicate WorkerFieldsFollow(sh: Shared, pc: WorkerPc, w: nat, m: WorkerMove) {
    m.Turns? ==>
      && m.sh.shutdown == sh.shutdown
      && m.sh.generation == sh.generation + (if pc.BumpGeneration? then 1 else 0)
      && (m.sh.session == sh.session || m.sh.session.Nobody? || (m.pc.BumpGeneration? && m.sh.session == Is(w)))
      && (Unconnected(m.pc) ==> Unconnected(pc) && !pc.BumpGeneration?)
  }

  predicate WorkerLocksFollow(sh: Shared, pc: WorkerPc, w: nat, m: WorkerMove) {
    m.Turns? ==>
      && m.sh.lifecycle == sh.lifecycle
      && m.sh.lock == (if WorkerHoldsLock(m.pc) == WorkerHoldsLock(pc) then sh.lock
                       else if WorkerHoldsLock(m.pc) then ByWorker(w) else Free)
      && (WorkerHoldsLock(m.pc) && !WorkerHoldsLock(pc) ==> sh.lock.Free?)
  }

  // ---------------------------------------------------------------- the invariant of whole states

  function Cur(s: State): WorkerPc {
    if s.sh.thread.Is? && s.sh.thread.id < |s.workers| then s.workers[s.sh.thread.id].pc else Dead
  }

  function Owner(s: State): Caller {
    if s.sh.lifecycle.Is? && s.sh.lifecycle.id < |s.callers| then s.callers[s.sh.lifecycle.id]
    else Caller(Request(Idle), Ensure, false, false, 0, Nobody, Nobody, false, false)
  }

  /** The locks are held exactly by the threads standing inside their sections. */
  ghost predicate Locks(s: State) {
    && (s.sh.lifecycle.Is? ==> s.sh.lifecycle.id < |s.callers|)
    && (s.sh.lock.ByCaller? ==> s.sh.lock.c < |s.callers|)
    && (s.sh.lock.ByWorker? ==> s.sh.lock.w < |s.workers|)
    && (forall c :: 0 <= c < |s.callers| ==> (HoldsLifecycle(s.callers[c].pc) <==> s.sh.lifecycle == Is(c)))
    && (forall c :: 0 <= c < |s.callers| ==> (HoldsLock(s.callers[c].pc) <==> s.sh.lock == ByCaller(c)))
    && (forall w :: 0 <= w < |s.workers| ==> (WorkerHoldsLock(s.workers[w].pc) <==> s.sh.lock == ByWorker(w)))
  }

  /** Every worker but the current thread is past its final cleanup. */
  ghost predicate OneWorker(s: State) {
    && (s.sh.thread.Is? ==> s.sh.thread.id < |s.workers|)
    && (forall w :: 0 <= w < |s.workers| && s.sh.thread != Is(w) ==> Gone(s.workers[w].pc))
  }

  predicate Unconnected(pc: WorkerPc) {
    pc.Created? || pc.PublishLoop? || pc.Connecting? || pc.EnterPublish? || pc.BumpGeneration?
  }

  /** How many workers ever connected. */
  function Connects(workers: seq<Worker>): nat {
    if workers == [] then 0
    else Connects(workers[..|workers| - 1]) + if workers[|workers| - 1].gen > 0 then 1 else 0
  }

  ghost predicate Generations(s: State) {
    && s.sh.generation == Connects(s.workers)
    && (forall w :: 0 <= w < |s.workers| ==>
          s.workers[w].gen <= s.sh.generation && (Unconnected(s.workers[w].pc) ==> s.workers[w].gen == 0))
    && (s.sh.session.Is? && s.sh.session.id < |s.workers| && !s.workers[s.sh.session.id].pc.BumpGeneration? ==>
          s.workers[s.sh.session.id].gen == s.sh.generation > 0)
  }

  ghost predicate Inv(s: State) {
    && Locks(s) && OneWorker(s) && Generations(s)
    && OwnerFacts(s.sh, Cur(s), Owner(s)) && SessionFacts(s.sh, Cur(s))
  }

  lemma StartInv(n: nat)
    ensures Inv(Start(n))
  {
  }

  lemma CallerKeepsLocks(s: State, c: nat, k: Choice)
    requires Locks(s) && c < |s.callers| && CallerEvent(s, c, k).Next?
    ensures Locks(CallerEvent(s, c, k).state)
  {
    var m := CallerStep(s.sh, s.callers[c], c, AliveWorkers(s.workers), |s.workers|, k);
    assert LocksFollow(s.sh, s.callers[c], c, m);
  }

  /** What a caller's step changes, as the next state sees it. */
  lemma CallerEventViews(s: State, c: nat, k: Choice)
    requires Locks(s) && OneWorker(s) && SessionFacts(s.sh, Cur(s)) && c < |s.callers| && CallerEvent(s, c, k).Next?
    ensures var me, s' := s.callers[c], CallerEvent(s, c, k).state;
      var m := CallerStep(s.sh, me, c, AliveWorkers(s.workers), |s.workers|, k);
      && s'.sh == m.sh
      && (HoldsLifecycle(me.pc) ==> Owner(s) == me && Cur(s') == NextCur(Cur(s), me, m.sh))
      && (HoldsLifecycle(m.me.pc) ==> Owner(s') == m.me)
      && (!HoldsLifecycle(m.me.pc) && HoldsLifecycle(me.pc) ==> !HoldsLifecycle(Owner(s').pc))
      && (!HoldsLifecycle(me.pc) ==> s'.workers == s.workers)
      && (!HoldsLifecycle(me.pc) && !HoldsLifecycle(m.me.pc) ==> Owner(s') == Owner(s))
  {
    CallerKeepsLocks(s, c, k);
  }

  lemma CallerKeepsFacts(s: State, c: nat, k: Choice)
    requires Inv(s) && c < |s.callers| && CallerEvent(s, c, k).Next?
    ensures var s' := CallerEvent(s, c, k).state;
      OwnerFacts(s'.sh, Cur(s'), Owner(s')) && SessionFacts(s'.sh, Cur(s'))
  {
    var me, alive := s.callers[c], AliveWorkers(s.workers);
    CallerEventViews(s, c, k);
    if HoldsLifecycle(me.pc) {
      OwnerStepKeeps(s.sh, Cur(s), me, c, alive, |s.workers|, k);
    } else {
      OutsideStepKeeps(s.sh, Cur(s), Owner(s), me, c, alive, |s.workers|, k);
    }
  }

  lemma CallerKeepsWorkers(s: State, c: nat, k: Choice)
    requires Inv(s) && c < |s.callers| && CallerEvent(s, c, k).Next?
    ensures OneWorker(CallerEvent(s, c, k).state)
  {
    hide RequestStep, CallStep, AwaitStep, GuardStep, BetweenStep, StopStep, RestartStep;
    CallerEventViews(s, c, k);
    if HoldsLifecycle(s.callers[c].pc) {
      OwnerStepKeeps(s.sh, Cur(s), s.callers[c], c, AliveWorkers(s.workers), |s.workers|, k);
    }
  }

  lemma CreatedKeepsConnects(workers: seq<Worker>, w: Worker)
    requires w.gen == 0
    ensures Connects(workers + [w]) == Connects(workers)
  {
    assert (workers + [w])[..|workers|] == workers;
  }

  lemma {:induction false} UpdateConnects(workers: seq<Worker>, w: nat, worker: Worker)
    requires w < |workers|
    ensures Connects(workers[w := worker])
         == Connects(workers) - (if workers[w].gen > 0 then 1 else 0) + (if worker.gen > 0 then 1 else 0)
  {
    var last := |workers| - 1;
    if w == last {
      assert workers[w := worker][..last] == workers[..last];
    } else {
      assert workers[w := worker][..last] == workers[..last][w := worker];
      UpdateConnects(workers[..last], w, worker);
    }
  }

  lemma SpawnedKeepsConnects(workers: seq<Worker>, pc: CallerPc, thread: Ref)
    ensures Connects(Spawned(workers, pc, thread)) == Connects(workers)
  {
    if pc.Restart? && pc.restart.CreateThread? {
      CreatedKeepsConnects(workers, Worker(Created, 0));
    } else if pc.Restart? && pc.restart.StartThread? && thread.Is? && thread.id < |workers| {
      UpdateConnects(workers, thread.id, workers[thread.id].(pc := PublishLoop));
    }
  }

  lemma CallerKeepsGenerations(s: State, c: nat, k: Choice)
    requires Inv(s) && c < |s.callers| && CallerEvent(s, c, k).Next?
    ensures Generations(CallerEvent(s, c, k).state)
  {
    hide RequestStep, CallStep, AwaitStep, GuardStep, BetweenStep, StopStep, RestartStep, Connects;
    var me, s' := s.callers[c], CallerEvent(s, c, k).state;
    SpawnedKeepsConnects(s.workers, me.pc, s.sh.thread);
    if me.pc.Restart? && me.pc.restart.StartThread? {
      assert Owner(s) == me && Cur(s).Created?;
    }
  }

  lemma WorkerKeepsLocks(s: State, w: nat, k: Choice)
    requires Locks(s) && w < |s.workers| && WorkerEvent(s, w, k).Next?
    ensures Locks(WorkerEvent(s, w, k).state)
  {
    assert WorkerLocksFollow(s.sh, s.workers[w].pc, w, WorkerStep(s.sh, s.workers[w].pc, w, k));
  }

  /** A worker past its cleanup only stops being alive. */
  lemma GoneStep(sh: Shared, pc: WorkerPc, w: nat, k: Choice)
    requires Gone(pc)
    ensures var m := WorkerStep(sh, pc, w, k); m.Turns? ==> m.sh == sh && m.pc == Dead
  {
  }

  lemma CurrentWorkerKeeps(sh: Shared, pc: WorkerPc, owner: Caller, w: nat, k: Choice)
    requires WorkerMay(sh, pc, owner, w)
    ensures WorkerKept(owner, WorkerStep(sh, pc, w, k))
    ensures var m := WorkerStep(sh, pc, w, k); m.Turns? ==>
      m.sh.thread == sh.thread || (m.sh.thread.Nobody? && Gone(m.pc))
  {
    if pc.Created? || pc.PublishLoop? || pc.Connecting? || pc.EnterPublish? || pc.BumpGeneration? || pc.ClearBroken? || pc.RaiseReady? {
      ConnectKeeps(sh, pc, owner, w, k);
    } else if pc.Serving? || pc.LeaveSession? || pc.Caught? || pc.RecordError? || pc.RecordBroken? {
      ServeKeeps(sh, pc, owner, w, k);
    } else {
      CleanupKeeps(sh, pc, owner, w, k);
    }
  }

  lemma WorkerKeepsFacts(s: State, w: nat, k: Choice)
    requires Inv(s) && w < |s.workers| && WorkerEvent(s, w, k).Next?
    ensures var s' := WorkerEvent(s, w, k).state;
      OneWorker(s') && OwnerFacts(s'.sh, Cur(s'), Owner(s')) && SessionFacts(s'.sh, Cur(s'))
  {
    var pc, owner := s.workers[w].pc, Owner(s);
    WorkerKeepsLocks(s, w, k);
    if s.sh.thread == Is(w) {
      CurrentWorkerKeeps(s.sh, pc, owner, w, k);
    } else {
      GoneStep(s.sh, pc, w, k);
    }
  }

  lemma WorkerKeepsGenerations(s: State, w: nat, k: Choice)
    requires Inv(s) && w < |s.workers| && WorkerEvent(s, w, k).Next?
    ensures Generations(WorkerEvent(s, w, k).state)
  {
    var s' := WorkerEvent(s, w, k).state;
    UpdateConnects(s.workers, w, s'.workers[w]);
  }

  lemma StepKeepsInv(s: State, e: Event)
    requires Inv(s) && Step(s, e).Next?
    ensures Inv(Step(s, e).state)
  {
    match e
    case Client(c, k) =>
      CallerKeepsLocks(s, c, k);
      CallerKeepsFacts(s, c, k);
      CallerKeepsWorkers(s, c, k);
      CallerKeepsGenerations(s, c, k);
    case Background(w, k) =>
      WorkerKeepsLocks(s, w, k);
      WorkerKeepsFacts(s, w, k);
      WorkerKeepsGenerations(s, w, k);
  }

  /** Every state of every run satisfies the invariant. */
  lemma {:induction false} RunKeepsInv(n: nat, events: seq<Event>)
    requires Run(Start(n), events).Next?
    ensures Inv(Run(Start(n), events).state)
    decreases |events|
  {
    if events == [] {
      StartInv(n);
    } else {
      RunKeepsInv(n, events[..|events| - 1]);
      StepKeepsInv(Run(Start(n), events[..|events| - 1]).state, events[|events| - 1]);
    }
  }

  // ---------------------------------------------------------------- what every run guarantees

  ghost predicate Reachable(s: State) {
    exists n: nat, events :: Run(Start(n), events) == Next(s)
  }

  lemma ReachableInv(s: State)
    requires Reachable(s)
    ensures Inv(s)
  {
    var n: nat, events :| Run(Start(n), events) == Next(s);
    RunKeepsInv(n, events);
  }

  /** At most one worker has not finished its final cleanup, and it is `_thread`. */
  lemma AtMostOneWorker(s: State, v: nat, w: nat)
    requires Reachable(s) && v < |s.workers| && w < |s.workers|
    requires Unfinished(s.workers[v].pc) && Unfinished(s.workers[w].pc)
    ensures v == w && s.sh.thread == Is(w)
  {
    ReachableInv(s);
  }

  /** The cleanup that runs outside every lock cannot reach a newer session: nobody else is
      unfinished, the session is the worker's own or gone, and no thread is being created. */
  lemma UnguardedClearIsSafe(s: State, w: nat)
    requires Reachable(s) && w < |s.workers|
    requires s.workers[w].pc.ClearSession? || s.workers[w].pc.ClearReady?
    ensures s.sh.session.Nobody? || s.sh.session == Is(w)
    ensures forall v :: 0 <= v < |s.workers| && v != w ==> Gone(s.workers[v].pc)
    ensures forall c :: 0 <= c < |s.callers| && s.callers[c].pc.Restart? ==> s.callers[c].pc.restart.DecideStart?
  {
    ReachableInv(s);
  }

  /** The fast path of `_ensure_connected` tells the truth: its three flags imply a published
      session of the newest generation, owned by the one running worker. */
  lemma UsableMeansSession(s: State)
    requires Reachable(s) && !s.sh.shutdown && s.sh.ready && !s.sh.broken
    ensures s.sh.session.Is? && s.sh.session == s.sh.thread && s.sh.session.id < |s.workers|
    ensures Unfinished(s.workers[s.sh.session.id].pc) && s.workers[s.sh.session.id].gen == s.sh.generation > 0
  {
    ReachableInv(s);
  }

  /** `_generation` counts the workers that ever connected. */
  lemma GenerationCountsConnects(s: State)
    requires Reachable(s)
    ensures s.sh.generation == Connects(s.workers)
  {
    ReachableInv(s);
  }

  // ---------------------------------------------------------------- no wait cycle

  datatype Thread = CallerThread(c: nat) | WorkerThread(w: nat)

  function LockOwner(lock: Lock): Option<Thread> {
    match lock
    case Free => None
    case ByCaller(c) => Some(CallerThread(c))
    case ByWorker(w) => Some(WorkerThread(w))
  }

  /** Whom a thread waits for; a join counts as waiting even though it has a timeout. */
  function WaitsFor(s: State, a: Thread): Option<Thread> {
    match a
    case CallerThread(c) =>
      if c >= |s.callers| then None else
      (match s.callers[c].pc
       case Request(at) =>
         if at.EnterLifecycle? && s.sh.lifecycle.Is? then Some(CallerThread(s.sh.lifecycle.id))
         else None
       case Call(at) => if at.Calling? then None else LockOwner(s.sh.lock)
       case Await(at) => if at.EnterPoll? then LockOwner(s.sh.lock) else None
       case Between(at) =>
         if !at.Join? then LockOwner(s.sh.lock)
         else if IsAlive(AliveWorkers(s.workers), s.callers[c].t) then Some(WorkerThread(s.callers[c].t.id))
         else None
       case _ => None)
    case WorkerThread(w) =>
      if w >= |s.workers| then None
      else if s.workers[w].pc.PublishLoop? || s.workers[w].pc.EnterPublish? || s.workers[w].pc.EnterForget?
      then LockOwner(s.sh.lock) else None
  }

  function Rank(s: State, a: Thread): nat {
    match a
    case CallerThread(c) =>
      if c >= |s.callers| || HoldsLock(s.callers[c].pc) then 0
      else if s.callers[c].pc.Request? && s.callers[c].pc.request.EnterLifecycle? then 3
      else if s.callers[c].pc.Between? && s.callers[c].pc.between.Join? then 2
      else 1
    case WorkerThread(w) => if w >= |s.workers| || WorkerHoldsLock(s.workers[w].pc) then 0 else 1
  }

  lemma WaitsDescend(s: State, a: Thread)
    requires Inv(s) && WaitsFor(s, a).Some?
    ensures Rank(s, WaitsFor(s, a).value) < Rank(s, a)
  {
  }

  lemma {:induction false} RankFalls(s: State, chain: seq<Thread>)
    requires Inv(s) && |chain| >= 2
    requires forall i :: 0 <= i < |chain| - 1 ==> WaitsFor(s, chain[i]) == Some(chain[i + 1])
    ensures Rank(s, chain[|chain| - 1]) < Rank(s, chain[0])
  {
    assert WaitsFor(s, chain[0]) == Some(chain[1]);
    WaitsDescend(s, chain[0]);
    if |chain| > 2 {
      RankFalls(s, chain[1..]);
    }
  }

  /** Threads never wait for each other in a circle. */
  lemma NoWaitCycle(s: State, chain: seq<Thread>)
    requires Reachable(s) && |chain| >= 2
    requires forall i :: 0 <= i < |chain| - 1 ==> WaitsFor(s, chain[i]) == Some(chain[i + 1])
    ensures chain[0] != chain[|chain| - 1]
  {
    ReachableInv(s);
    RankFalls(s, chain);
  }

  /** The thread at the end of the chain of waits that starts at `a`. */
  ghost function EndOfWait(s: State, a: Thread): Thread
    requires Inv(s)
    decreases Rank(s, a)
  {
    match WaitsFor(s, a)
    case None => a
    case Some(b) => WaitsDescend(s, a); EndOfWait(s, b)
  }

  predicate Runs(s: State, a: Thread) {
    match a
    case CallerThread(c) => c < |s.callers|
    case WorkerThread(w) => w < |s.workers| && AlivePc(s.workers[w].pc)
  }

  /** The event by which a thread goes on without any timeout expiring. */
  function Onward(s: State, a: Thread): Event
    requires Runs(s, a)
  {
    match a
    case CallerThread(c) =>
      Client(c, if s.callers[c].pc == Request(Idle) then BeginCall
                else if s.callers[c].pc == Call(Calling) then Succeed else Go)
    case WorkerThread(w) => Background(w, if s.workers[w].pc.Connecting? then Succeed else Go)
  }

  lemma CallerGoesOn(s: State, c: nat)
    requires Inv(s) && c < |s.callers| && WaitsFor(s, CallerThread(c)).None?
    ensures Step(s, Onward(s, CallerThread(c))).Next?
  {
    assert s.callers[c].pc.Guard? || s.callers[c].pc.Stop? || s.callers[c].pc.Restart? ==> HoldsLock(s.callers[c].pc);
  }

  lemma WorkerGoesOn(s: State, w: nat)
    requires Inv(s) && w < |s.workers| && AlivePc(s.workers[w].pc) && WaitsFor(s, WorkerThread(w)).None?
    ensures Step(s, Onward(s, WorkerThread(w))).Next?
  {
  }

  lemma WaitedForRuns(s: State, a: Thread)
    requires Inv(s) && WaitsFor(s, a).Some?
    ensures Runs(s, WaitsFor(s, a).value)
  {
  }

  lemma {:induction false} EndOfWaitGoesOn(s: State, a: Thread)
    requires Inv(s) && Runs(s, a)
    ensures Runs(s, EndOfWait(s, a)) && Step(s, Onward(s, EndOfWait(s, a))).Next?
    decreases Rank(s, a)
  {
    match WaitsFor(s, a)
    case None =>
      match a {
        case CallerThread(c) => CallerGoesOn(s, c);
        case WorkerThread(w) => WorkerGoesOn(s, w);
      }
    case Some(b) =>
      WaitsDescend(s, a);
      WaitedForRuns(s, a);
      EndOfWaitGoesOn(s, b);
  }

  /** No deadlock: in every reachable state, following the waits of any live thread leads to a live
      thread that can go on without a timeout. */
  lemma SomeoneCanStep(s: State, a: Thread)
    requires Reachable(s) && Runs(s, a)
    ensures Inv(s) && Runs(s, EndOfWait(s, a)) && !Onward(s, EndOfWait(s, a)).choice.Expire?
    ensures Step(s, Onward(s, EndOfWait(s, a))).Next?
  {
    ReachableInv(s);
    EndOfWaitGoesOn(s, a);
  }

  // ---------------------------------------------------------------- close

  /** Past the shutdown check of `_ensure_connected`, and so still able to start a worker. */
  predicate MayStart(me: Caller) {
    match me.pc
    case Request(at) => at.CheckReady? || at.CheckBroken? || (at.EnterLifecycle? && (me.op.Ensure?))
    case Between(_) | Stop(_) | Restart(_) => me.op.Ensure?
    case _ => false
  }

  /** Shutdown is requested and no `_ensure_connected` is in flight. */
  ghost predicate Closed(s: State) {
    s.sh.shutdown && forall c :: 0 <= c < |s.callers| ==> !MayStart(s.callers[c])
  }

  /** `close` leaves with shutdown requested, whatever other callers and workers do meanwhile. */
  lemma CloseRequestsShutdown(s: State, c: nat, k: Choice)
    requires Reachable(s) && c < |s.callers| && s.callers[c].pc == Stop(ForgetRefs)
    ensures CallerEvent(s, c, k).Next? && CallerEvent(s, c, k).state.callers[c].pc == Request(Idle)
    ensures CallerEvent(s, c, k).state.sh.shutdown
  {
    ReachableInv(s);
  }

  /** With shutdown requested, a caller that may not start a worker stays that way. */
  predicate StaysOut(me: Caller, m: CallerMove) {
    m.Moves? ==> m.sh.shutdown && !MayStart(m.me)
  }

  lemma RequestStaysOut(sh: Shared, me: Caller, c: nat, k: Choice)
    requires me.pc.Request? && sh.shutdown && !MayStart(me)
    ensures StaysOut(me, RequestStep(sh, me, c, k))
  {
  }

  lemma AwaitStaysOut(sh: Shared, me: Caller, c: nat, alive: set<nat>, k: Choice)
    requires me.pc.Await? && sh.shutdown
    ensures StaysOut(me, AwaitStep(sh, me, c, alive, k))
  {
  }

  lemma CallStaysOut(sh: Shared, me: Caller, c: nat, k: Choice)
    requires me.pc.Call? && sh.shutdown
    ensures StaysOut(me, CallStep(sh, me, c, k))
  {
  }

  lemma GuardStaysOut(sh: Shared, me: Caller)
    requires me.pc.Guard? && sh.shutdown
    ensures StaysOut(me, GuardStep(sh, me))
  {
  }

  lemma CloseStaysOut(sh: Shared, me: Caller, c: nat, alive: set<nat>, k: Choice)
    requires me.pc.Between? && me.op.Close? && sh.shutdown
    ensures StaysOut(me, BetweenStep(sh, me, c, alive, k))
  {
  }

  /** The first section does not change what the request is and does not lower `_shutdown`. */
  lemma SectionKeepsRequest(sh: Shared, me: Caller, alive: set<nat>)
    requires me.pc.Stop?
    ensures var m := StopStep(sh, me, alive); m.Moves? ==>
      && m.me.op == me.op && m.me.force == me.force && m.me.g == me.g && (sh.shutdown ==> m.sh.shutdown)
      && (m.me.pc.Stop? || m.me.pc.Between? || m.me.pc == Call(EnterReadGeneration) || m.me.pc == Request(Idle))
  {
    hide FieldsFollow, IsAlive, HoldsLifecycle;
  }

  lemma CloseSectionStaysOut(sh: Shared, me: Caller, alive: set<nat>)
    requires me.pc.Stop? && me.op.Close? && sh.shutdown
    ensures StaysOut(me, StopStep(sh, me, alive))
  {
    hide StopStep, FieldsFollow, HoldsLifecycle;
    SectionKeepsRequest(sh, me, alive);
  }

  lemma CallerStaysOut(sh: Shared, me: Caller, c: nat, alive: set<nat>, newId: nat, k: Choice)
    requires sh.shutdown && !MayStart(me) && !me.pc.Restart? && (me.pc.Between? || me.pc.Stop? ==> me.op.Close?)
    ensures StaysOut(me, CallerStep(sh, me, c, alive, newId, k))
  {
    hide RequestStep, CallStep, AwaitStep, GuardStep, BetweenStep, StopStep, RestartStep;
    hide FieldsFollow, LocksFollow, OutsideEffect, StaysOut;
    if me.pc.Request? {
      RequestStaysOut(sh, me, c, k);
    } else if me.pc.Await? {
      AwaitStaysOut(sh, me, c, alive, k);
    } else if me.pc.Between? {
      CloseStaysOut(sh, me, c, alive, k);
    } else if me.pc.Stop? {
      CloseSectionStaysOut(sh, me, alive);
    } else if me.pc.Call? {
      CallStaysOut(sh, me, c, k);
    } else {
      GuardStaysOut(sh, me);
    }
  }

  lemma StepStaysClosed(s: State, e: Event)
    requires Inv(s) && Closed(s) && Step(s, e).Next?
    ensures Closed(Step(s, e).state) && |Step(s, e).state.workers| == |s.workers|
  {
    match e
    case Background(w, k) =>
    case Client(c, k) =>
      var me := s.callers[c];
      assert !MayStart(me) && !me.pc.Restart?;
      CallerStaysOut(s.sh, me, c, AliveWorkers(s.workers), |s.workers|, k);
      hide CallerStep;
  }

  /** Once `close` has returned and no `_ensure_connected` is in flight, no worker ever starts again. */
  lemma {:induction false} ClosedForGood(s: State, events: seq<Event>)
    requires Reachable(s) && Closed(s) && Run(s, events).Next?
    ensures Closed(Run(s, events).state) && |Run(s, events).state.workers| == |s.workers|
    decreases |events|
  {
    if events != [] {
      var before := events[..|events| - 1];
      ClosedForGood(s, before);
      RunFromReachable(s, before);
      ReachableInv(Run(s, before).state);
      StepStaysClosed(Run(s, before).state, events[|events| - 1]);
    }
  }

  lemma {:induction false} RunAppend(s: State, a: seq<Event>, b: seq<Event>)
    requires Run(s, a).Next?
    ensures Run(s, a + b) == Run(Run(s, a).state, b)
    decreases |b|
  {
    if b == [] {
      assert a + b == a;
    } else {
      var n := |b| - 1;
      RunAppend(s, a, b[..n]);
      assert (a + b)[..|a + b| - 1] == a + b[..n];
    }
  }

  lemma RunFromReachable(s: State, events: seq<Event>)
    requires Reachable(s) && Run(s, events).Next?
    ensures Reachable(Run(s, events).state)
  {
    var n: nat, before :| Run(Start(n), before) == Next(s);
    RunAppend(Start(n), before, events);
    assert Run(Start(n), before + events) == Next(Run(s, events).state);
  }

  // ---------------------------------------------------------------- generations

  /** How many workers connect during a run from `s`. */
  function ConnectsIn(s: State, events: seq<Event>): nat
    requires Run(s, events).Next?
    decreases |events|
  {
    if events == [] then 0
    else
      var before, e := events[..|events| - 1], events[|events| - 1];
      var last := Run(s, before).state;
      ConnectsIn(s, before)
      + if e.Background? && e.w < |last.workers| && last.workers[e.w].pc.BumpGeneration? then 1 else 0
  }

  /** `_generation` never falls, and grows by exactly the connects. */
  lemma {:induction false} GenerationGrowsByConnects(s: State, events: seq<Event>)
    requires Run(s, events).Next?
    ensures Run(s, events).state.sh.generation == s.sh.generation + ConnectsIn(s, events)
    decreases |events|
  {
    if events != [] {
      var before, e := events[..|events| - 1], events[|events| - 1];
      var last := Run(s, before).state;
      GenerationGrowsByConnects(s, before);
      match e {
        case Client(c, k) =>
        case Background(w, k) =>
          assert WorkerFieldsFollow(last.sh, last.workers[w].pc, w, WorkerStep(last.sh, last.workers[w].pc, w, k));
      }
    }
  }

  /** The session is of the newest generation, and that is newer than `g`. */
  predicate SessionNewerThan(s: State, g: nat) {
    s.sh.session.Is? && s.sh.session.id < |s.workers| && s.workers[s.sh.session.id].gen == s.sh.generation > g
  }

  /** The failure of generation `g` has been marked: any session there is was connected since, or is just
      being counted. */
  predicate Cleared(s: State, g: nat) {
    s.sh.session.Is? ==>
      s.sh.generation > g || (s.sh.session.id < |s.workers| && s.workers[s.sh.session.id].pc.BumpGeneration?)
  }

  predicate MarksFailure(me: Caller, g: nat) {
    me.g == g && ((me.pc.Call? && me.pc.call.EnterFailure?) || (me.pc.Guard? && me.pc.guard.MarkFailure?))
  }

  /** Either caller `c` is still marking its failure under generation `g`, or it is marked. */
  predicate FailureMarked(s: State, c: nat, g: nat) {
    s.sh.generation >= g && c < |s.callers| && (MarksFailure(s.callers[c], g) || Cleared(s, g))
  }

  lemma WorkerKeepsCleared(s: State, w: nat, k: Choice, g: nat)
    requires Inv(s) && w < |s.workers| && WorkerEvent(s, w, k).Next? && Cleared(s, g) && s.sh.generation >= g
    ensures Cleared(WorkerEvent(s, w, k).state, g)
  {
    var m := WorkerStep(s.sh, s.workers[w].pc, w, k);
    assert WorkerFieldsFollow(s.sh, s.workers[w].pc, w, m);
    assert s.workers[w].pc.BumpGeneration? ==> m.sh.generation > g;
  }

  lemma CallerKeepsCleared(s: State, c: nat, k: Choice, g: nat)
    requires Inv(s) && c < |s.callers| && CallerEvent(s, c, k).Next? && Cleared(s, g)
    ensures Cleared(CallerEvent(s, c, k).state, g)
  {
    hide RequestStep, CallStep, AwaitStep, GuardStep, BetweenStep, StopStep, RestartStep;
    var m := CallerStep(s.sh, s.callers[c], c, AliveWorkers(s.workers), |s.workers|, k);
    assert FieldsFollow(s.sh, m, if s.callers[c].pc.Restart? && s.callers[c].pc.restart.CreateThread? then Some(|s.workers|) else None);
    SpawnedKeepsPublisher(s, c);
  }

  /** Creating or starting a thread does not touch a worker that is publishing. */
  lemma SpawnedKeepsPublisher(s: State, c: nat)
    requires Inv(s) && c < |s.callers|
    ensures var workers := Spawned(s.workers, s.callers[c].pc, s.sh.thread);
      forall w :: 0 <= w < |s.workers| && s.workers[w].pc.BumpGeneration? ==> w < |workers| && workers[w] == s.workers[w]
  {
  }

  /** The caller's own step marks the failure or finds a newer generation. */
  lemma MarkingMarks(s: State, c: nat, k: Choice, g: nat)
    requires Inv(s) && c < |s.callers| && CallerEvent(s, c, k).Next? && s.sh.generation >= g
    requires MarksFailure(s.callers[c], g)
    ensures FailureMarked(CallerEvent(s, c, k).state, c, g)
  {
  }

  lemma StepKeepsFailureMarked(s: State, e: Event, c: nat, g: nat)
    requires Inv(s) && FailureMarked(s, c, g) && Step(s, e).Next?
    ensures FailureMarked(Step(s, e).state, c, g)
  {
    hide RequestStep, CallStep, AwaitStep, GuardStep, BetweenStep, StopStep, RestartStep, WorkerStep, Inv;
    match e
    case Background(w, k) =>
      assert WorkerFieldsFollow(s.sh, s.workers[w].pc, w, WorkerStep(s.sh, s.workers[w].pc, w, k));
      if Cleared(s, g) {
        WorkerKeepsCleared(s, w, k, g);
      }
    case Client(d, k) =>
      if Cleared(s, g) {
        CallerKeepsCleared(s, d, k, g);
      } else if d == c {
        MarkingMarks(s, c, k, g);
      }
  }

  lemma {:induction false} RunKeepsFailureMarked(s: State, c: nat, g: nat, events: seq<Event>)
    requires Reachable(s) && FailureMarked(s, c, g) && Run(s, events).Next?
    ensures FailureMarked(Run(s, events).state, c, g)
    decreases |events|
  {
    if events != [] {
      var before := events[..|events| - 1];
      RunKeepsFailureMarked(s, c, g, before);
      RunFromReachable(s, before);
      ReachableInv(Run(s, before).state);
      StepKeepsFailureMarked(Run(s, before).state, events[|events| - 1], c, g);
    }
  }

  /** A request failed under generation `g`, still current in `s`, so its caller forces a reconnect. What
      that caller finds under the locks when it is about to drop the session is never the session that
      failed: it drops nothing, or a newer session, and the latter exactly if `_session` is not None
      there. If the generation is still `g`, nothing connected since and it drops nothing. */
  lemma ForcedDropHitsNothingOrNewer(s: State, c: nat, events: seq<Event>)
    requires Reachable(s) && c < |s.callers|
    requires s.callers[c].pc == Call(EnterFailure) && s.callers[c].g == s.sh.generation
    requires Run(s, events).Next? && c < |Run(s, events).state.callers|
    requires Run(s, events).state.callers[c].pc == Stop(DropRefs)
    ensures var s', g := Run(s, events).state, s.callers[c].g;
      && (s'.sh.generation == g <==> ConnectsIn(s, events) == 0)
      && (s'.sh.generation == g ==> s'.sh.session.Nobody?)
      && (SessionNewerThan(s', g) <==> s'.sh.session.Is?)
  {
    RunFromReachable(s, events);
    ReachableInv(Run(s, events).state);
    GenerationGrowsByConnects(s, events);
    RunKeepsFailureMarked(s, c, s.callers[c].g, events);
  }

  /** A worker that has not connected yet when a reconnect is forced is stopped like any other: it is
      the thread the forced caller goes on to join. */
  lemma ConnectingWorkerIsJoined(s: State, c: nat, k: Choice)
    requires Reachable(s) && c < |s.callers| && s.callers[c].pc == Stop(DropRefs)
    requires s.sh.thread.Is? && s.sh.thread.id < |s.workers| && Unconnected(s.workers[s.sh.thread.id].pc)
    ensures var r := CallerEvent(s, c, k);
      && r.Next? && r.state.sh.shutdown && r.state.sh.session.Nobody?
      && r.state.callers[c].pc == Stop(LowerReady) && r.state.callers[c].t == s.sh.thread
  {
    ReachableInv(s);
  }

  /** While its caller waits in the join, shutdown stays requested, so a worker that connects only now
      leaves at the first look at `_shutdown` instead of serving. */
  lemma JoinedWorkerDoesNotServe(s: State, c: nat, w: nat, k: Choice)
    requires Reachable(s) && c < |s.callers| && s.callers[c].pc == Between(Join) && w < |s.workers|
    ensures s.sh.shutdown
    ensures s.workers[w].pc.Serving? ==> WorkerEvent(s, w, k).Next? && !WorkerEvent(s, w, k).state.workers[w].pc.Serving?
  {
    ReachableInv(s);
  }

  ghost predicate NoneConnecting(s: State) {
    forall w :: 0 <= w < |s.workers| ==> !Unconnected(s.workers[w].pc)
  }

  /** A step that creates no thread connects nobody and leaves nobody connecting. */
  lemma StepConnectsNobody(s: State, e: Event)
    requires Inv(s) && NoneConnecting(s) && Step(s, e).Next? && |Step(s, e).state.workers| == |s.workers|
    ensures NoneConnecting(Step(s, e).state)
  {
    match e
    case Client(c, k) =>
      assert !(s.callers[c].pc.Restart? && s.callers[c].pc.restart.StartThread?);
    case Background(w, k) =>
      assert WorkerFieldsFollow(s.sh, s.workers[w].pc, w, WorkerStep(s.sh, s.workers[w].pc, w, k));
  }

  /** A run that creates no thread and begins with no worker still connecting connects nobody. */
  lemma {:induction false} NoConnectWithoutNewThread(s: State, events: seq<Event>)
    requires Reachable(s) && NoneConnecting(s) && Run(s, events).Next?
    requires |Run(s, events).state.workers| == |s.workers|
    ensures ConnectsIn(s, events) == 0 && NoneConnecting(Run(s, events).state)
    decreases |events|
  {
    if events != [] {
      var before, e := events[..|events| - 1], events[|events| - 1];
      var last := Run(s, before).state;
      WorkersOnlyGrow(s, before);
      NoConnectWithoutNewThread(s, before);
      RunFromReachable(s, before);
      ReachableInv(last);
      StepConnectsNobody(last, e);
    }
  }

  lemma {:induction false} WorkersOnlyGrow(s: State, events: seq<Event>)
    requires Run(s, events).Next?
    ensures |s.workers| <= |Run(s, events).state.workers|
    decreases |events|
  {
    if events != [] {
      WorkersOnlyGrow(s, events[..|events| - 1]);
    }
  }
}
