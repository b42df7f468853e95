/** Requests, the inactivity watchdog and the inference worker, interleaved around the engine mutex. */
module AiLifecycle {
  import opened InferenceWorker
  import opened Wrappers

  datatype ModelState = Unloaded | Loading | Ready | UnloadingState

  type EngineId = nat

  /** Where a task stands: ensure_model_loaded, unload_model, or queueing a generation. */
  datatype Pc =
    | EnsureWait | EnsureLocked | EnsureCreate | EnsureFlag | EnsureCheck | EnsureLoad | EnsureAwait
    | EnsureRelease | EnsureFinish
    | UnloadStart | UnloadWait | UnloadLocked | UnloadAwait | UnloadDrop | UnloadFlag | UnloadMark | UnloadRelease
    | GenerateWait | GenerateLocked | GenerateRelease
    | Finished(ok: bool) | Cancelled

  /** The steps during which the task owns the engine mutex. */
  predicate Holds(pc: Pc) {
    match pc
    case EnsureLocked => true
    case EnsureCreate => true
    case EnsureFlag => true
    case EnsureCheck => true
    case EnsureLoad => true
    case EnsureAwait => true
    case EnsureRelease => true
    case UnloadLocked => true
    case UnloadAwait => true
    case UnloadDrop => true
    case UnloadFlag => true
    case UnloadMark => true
    case UnloadRelease => true
    case GenerateLocked => true
    case GenerateRelease => true
    case _ => false
  }

  /** Handlers are dropped, where they await something, when their client goes away; the watchdog is not. */
  predicate Cancellable(pc: Pc) {
    !pc.Finished? && !pc.Cancelled? && !pc.EnsureFlag? && !ByWatchdog(pc)
  }

  predicate ByWatchdog(pc: Pc) {
    pc.UnloadStart? || pc.UnloadWait? || pc.UnloadLocked? || pc.UnloadAwait? || pc.UnloadDrop? || pc.UnloadFlag?
    || pc.UnloadMark? || pc.UnloadRelease?
  }

  datatype Daemon = Daemon(
    tasks: seq<Pc>, lock: Option<TaskId>, engine: Option<EngineId>, engineCreated: bool, modelState: ModelState,
    workers: seq<Worker>, replies: map<TaskId, bool>, config: Config)

  datatype Event =
    | StartEnsure | StartUnload | StartGenerate
    | Advance(task: TaskId, works: bool)
    | Cancel(task: TaskId)
    | WorkerStep(engine: EngineId, succeeds: bool)

  function Initial(config: Config): Daemon {
    Daemon([], None, None, false, Unloaded, [], map[], config)
  }

  predicate NeedsLoad(name: Option<string>) {
    name.None? || name.value == "none" || name.value == "unloaded"
  }

  /** An unload may start at any time: the watchdog reads its conditions one by one, before it asks for the mutex. */
  predicate Enabled(d: Daemon, e: Event) {
    match e
    case Advance(t, _) =>
      t < |d.tasks|
      && (match d.tasks[t]
          case EnsureWait => d.lock.None?
          case UnloadWait => d.lock.None?
          case GenerateWait => d.lock.None?
          case EnsureAwait => t in d.replies
          case UnloadAwait => t in d.replies
          case Finished(_) => false
          case Cancelled => false
          case _ => true)
    case Cancel(t) => t < |d.tasks| && Cancellable(d.tasks[t])
    case WorkerStep(g, _) => g < |d.workers| && CanStep(d.workers[g])
    case _ => true
  }

  predicate EngineExists(d: Daemon) {
    d.engine.Some? ==> d.engine.value < |d.workers|
  }

  /** The step after this one. */
  function NextPc(d: Daemon, t: TaskId, works: bool): Pc
    requires EngineExists(d) && Enabled(d, Advance(t, works))
  {
    match d.tasks[t]
    case EnsureWait => EnsureLocked
    case EnsureLocked => if d.engine.None? then EnsureCreate else EnsureCheck
    case EnsureCreate => if works then EnsureFlag else Finished(false)
    case EnsureFlag => EnsureCheck
    case EnsureCheck => if ShowsNoModel(d) then EnsureLoad else EnsureRelease
    case EnsureLoad => if Queues(d, t).Some? then EnsureAwait else EnsureRelease
    case EnsureAwait => if d.replies[t] then EnsureRelease else Finished(false)
    case EnsureRelease => EnsureFinish
    case EnsureFinish => Finished(true)
    case UnloadStart => UnloadWait
    case UnloadWait => UnloadLocked
    case UnloadLocked => if d.engine.Some? then UnloadAwait else UnloadFlag
    case UnloadAwait => UnloadDrop
    case UnloadDrop => UnloadFlag
    case UnloadFlag => UnloadMark
    case UnloadMark => UnloadRelease
    case UnloadRelease => Finished(true)
    case GenerateWait => GenerateLocked
    case GenerateLocked => if d.engine.Some? then GenerateRelease else Finished(false)
    case GenerateRelease => Finished(true)
    case Finished(ok) => Finished(ok)
    case Cancelled => Cancelled
  }

  /** The worker's published name says that a model has to be loaded. */
  predicate ShowsNoModel(d: Daemon)
    requires EngineExists(d)
  {
    d.engine.Some? && NeedsLoad(d.workers[d.engine.value].name)
  }

  /** The command this step queues, if any; Shutdown comes with the engine's drop. */
  function Queues(d: Daemon, t: TaskId): Option<Command>
    requires t < |d.tasks| && EngineExists(d)
  {
    if d.engine.None? then None
    else
      match d.tasks[t]
      case EnsureLoad => Some(Load(t, d.config))
      case UnloadLocked => Some(Unload(t))
      case UnloadDrop => Some(Shutdown)
      case GenerateLocked => Some(Generate(t))
      case _ => None
  }

  predicate Creates(d: Daemon, t: TaskId, works: bool)
    requires t < |d.tasks|
  {
    d.tasks[t].EnsureCreate? && works
  }

  function WorkersAfter(d: Daemon, t: TaskId, works: bool): seq<Worker>
    requires t < |d.tasks| && EngineExists(d)
  {
    if Creates(d, t, works) then d.workers + [NewWorker(d.config)]
    else if Queues(d, t).Some? then
      d.workers[d.engine.value := Enqueue(d.workers[d.engine.value], Queues(d, t).value)]
    else d.workers
  }

  function EngineAfter(d: Daemon, t: TaskId, works: bool): Option<EngineId>
    requires t < |d.tasks|
  {
    if Creates(d, t, works) then Some(|d.workers|)
    else if d.tasks[t].UnloadDrop? then None
    else d.engine
  }

  function CreatedAfter(d: Daemon, t: TaskId): bool
    requires t < |d.tasks|
  {
    if d.tasks[t].EnsureFlag? then true else if d.tasks[t].UnloadFlag? then false else d.engineCreated
  }

  /** model_state is written outside the mutex as well. */
  function ModelStateAfter(d: Daemon, t: TaskId): ModelState
    requires t < |d.tasks|
  {
    match d.tasks[t]
    case EnsureLocked => if d.engine.None? then Loading else d.modelState
    case EnsureFinish => Ready
    case UnloadStart => UnloadingState
    case UnloadMark => Unloaded
    case _ => d.modelState
  }

  /** Owned by whoever is in a locked step. */
  function LockAfter(d: Daemon, t: TaskId, pc: Pc): Option<TaskId>
    requires t < |d.tasks|
  {
    if Holds(pc) then Some(t) else if Holds(d.tasks[t]) then None else d.lock
  }

  function Next(d: Daemon, e: Event): Daemon
    requires EngineExists(d) && Enabled(d, e)
  {
    match e
    case StartEnsure => d.(tasks := d.tasks + [EnsureWait])
    case StartUnload => d.(tasks := d.tasks + [UnloadStart])
    case StartGenerate => d.(tasks := d.tasks + [GenerateWait])
    case Advance(t, works) =>
      var pc := NextPc(d, t, works);
      Daemon(d.tasks[t := pc], LockAfter(d, t, pc), EngineAfter(d, t, works), CreatedAfter(d, t), ModelStateAfter(d, t),
             WorkersAfter(d, t, works), d.replies, d.config)
    case Cancel(t) => d.(tasks := d.tasks[t := Cancelled], lock := LockAfter(d, t, Cancelled))
    case WorkerStep(g, succeeds) =>
      var (w, reply) := Step(d.workers[g], succeeds);
      d.(workers := d.workers[g := w],
         replies := if reply.ReplyTo? then d.replies[reply.task := reply.ok] else d.replies)
  }

  // ---- The invariant

  /** The mutex is owned by exactly the task that is in a locked step. */
  ghost predicate Locked(d: Daemon) {
    && (d.lock.Some? ==> d.lock.value < |d.tasks| && Holds(d.tasks[d.lock.value]))
    && forall t :: 0 <= t < |d.tasks| && Holds(d.tasks[t]) ==> d.lock == Some(t)
  }

  /** What the owner's step says about the engine and its flag. */
  predicate EngineAt(d: Daemon, pc: Pc) {
    match pc
    case EnsureCreate => d.engine.None? && !d.engineCreated
    case EnsureFlag => d.engine.Some?
    case EnsureCheck => d.engine.Some? && d.engineCreated
    case EnsureLoad => d.engine.Some? && d.engineCreated
    case EnsureAwait => d.engine.Some? && d.engineCreated
    case EnsureRelease => d.engine.Some? && d.engineCreated
    case UnloadAwait => d.engine.Some? && d.engineCreated
    case UnloadDrop => d.engine.Some? && d.engineCreated
    case UnloadFlag => d.engine.None?
    case UnloadMark => d.engine.None? && !d.engineCreated
    case UnloadRelease => d.engine.None? && !d.engineCreated
    case _ => d.engineCreated <==> d.engine.Some?
  }

  ghost predicate EngineAgrees(d: Daemon) {
    && EngineExists(d)
    && if d.lock.Some? && d.lock.value < |d.tasks| then EngineAt(d, d.tasks[d.lock.value])
       else d.engineCreated <==> d.engine.Some?
  }

  ghost predicate WorkersSound(d: Daemon) {
    forall g :: 0 <= g < |d.workers| ==> WorkerSound(d, g)
  }

  ghost predicate WorkerSound(d: Daemon, g: EngineId)
    requires g < |d.workers|
  {
    Consistent(d.workers[g]) && Ordered(d.workers[g]) && (d.engine == Some(g) ==> Shutdown !in d.workers[g].sent)
  }

  /** The commands a worker has not finished. */
  function Pending(w: Worker): seq<Command> {
    (if w.progress.Running? then [w.progress.cmd] else []) + w.queue
  }

  /** The task has not asked the worker for anything yet. */
  predicate Early(pc: Pc) {
    pc.EnsureWait? || pc.EnsureLocked? || pc.EnsureCreate? || pc.EnsureFlag? || pc.EnsureCheck?
    || pc.EnsureLoad?
    || pc.UnloadStart? || pc.UnloadWait? || pc.UnloadLocked?
  }

  predicate NotAsked(d: Daemon, t: TaskId) {
    t >= |d.tasks| || Early(d.tasks[t])
  }

  /** An unfinished command belongs to a task that asked; an Unload's task still waits, under the mutex. */
  ghost predicate CommandFits(d: Daemon, g: EngineId, c: Command) {
    match c
    case Load(t, _) =>
      && !NotAsked(d, t) && !ByWatchdog(d.tasks[t])
      && (d.tasks[t] == EnsureAwait ==> d.engine == Some(g) && t !in d.replies)
    case Unload(t) =>
      !NotAsked(d, t) && d.tasks[t] == UnloadAwait && d.engine == Some(g) && t !in d.replies
    case _ => true
  }

  predicate SameAsker(a: Command, b: Command) {
    (a.Load? || a.Unload?) && (b.Load? || b.Unload?) && a.task == b.task
  }

  ghost predicate NoRepeat(cs: seq<Command>) {
    forall i, j :: 0 <= i < j < |cs| ==> !SameAsker(cs[i], cs[j])
  }

  ghost predicate WorkerFits(d: Daemon, g: EngineId)
    requires g < |d.workers|
  {
    && (forall c :: c in Pending(d.workers[g]) ==> CommandFits(d, g, c))
    && NoRepeat(Pending(d.workers[g]))
  }

  ghost predicate CommandsFit(d: Daemon) {
    && (forall g :: 0 <= g < |d.workers| ==> WorkerFits(d, g))
    && (forall t :: t in d.replies ==> !NotAsked(d, t))
  }

  predicate ModelLoaded(d: Daemon) {
    d.engine.Some? && d.engine.value < |d.workers| && d.workers[d.engine.value].model.Some?
  }

  /** The task is at, or about to be let through to, the release of the mutex. */
  predicate Trusting(d: Daemon, t: TaskId) {
    t < |d.tasks| && (d.tasks[t] == EnsureRelease || (d.tasks[t] == EnsureAwait && t in d.replies && d.replies[t]))
  }

  /** From a positive answer to the release of the mutex, the worker has a model. */
  ghost predicate LoadedWhenDone(d: Daemon) {
    forall t: TaskId :: Trusting(d, t) ==> ModelLoaded(d)
  }

  ghost predicate Invariant(d: Daemon) {
    Locked(d) && EngineAgrees(d) && WorkersSound(d) && CommandsFit(d) && LoadedWhenDone(d)
  }

  lemma InitialIsSound(config: Config)
    ensures Invariant(Initial(config))
  {}

  // ---- Preservation, part by part

  /** The mutex is only ever taken when it is free. */
  lemma TakesFreeMutex(d: Daemon, t: TaskId, works: bool)
    requires EngineExists(d) && Enabled(d, Advance(t, works)) && Holds(NextPc(d, t, works)) && !Holds(d.tasks[t])
    ensures d.lock == None
  {
    hide Queues;
  }

  lemma NextKeepsLocked(d: Daemon, e: Event)
    requires Locked(d) && EngineExists(d) && Enabled(d, e)
    ensures Locked(Next(d, e))
  {
    if e.Advance? {
      if Holds(NextPc(d, e.task, e.works)) && !Holds(d.tasks[e.task]) { TakesFreeMutex(d, e.task, e.works); }
    }
    hide NextPc, Enabled, Holds, WorkersAfter, EngineAfter, CreatedAfter, ModelStateAfter, Step;
  }

  lemma AdvanceKeepsEngine(d: Daemon, t: TaskId, works: bool)
    requires Locked(d) && EngineAgrees(d) && Enabled(d, Advance(t, works))
    ensures EngineAgrees(Next(d, Advance(t, works)))
  {
    NextKeepsLocked(d, Advance(t, works));
    if Holds(d.tasks[t]) { assert d.lock == Some(t); }
    else if Holds(NextPc(d, t, works)) { TakesFreeMutex(d, t, works); }
    hide NeedsLoad, ModelStateAfter, NewWorker, Enqueue;
  }

  lemma NextKeepsEngine(d: Daemon, e: Event)
    requires Locked(d) && EngineAgrees(d) && Enabled(d, e)
    ensures EngineAgrees(Next(d, e))
  {
    if e.Advance? { AdvanceKeepsEngine(d, e.task, e.works); }
    else { hide Step, CanStep; }
  }

  lemma NextKeepsWorkers(d: Daemon, e: Event)
    requires EngineExists(d) && WorkersSound(d) && Enabled(d, e)
    ensures WorkersSound(Next(d, e))
  {
    var d' := Next(d, e);
    NewWorkerIsSound(d.config);
    if e.WorkerStep? {
      assert WorkerSound(d, e.engine);
      StepKeepsConsistent(d.workers[e.engine], e.succeeds);
      StepKeepsOrdered(d.workers[e.engine], e.succeeds);
      StepKeepsSent(d.workers[e.engine], e.succeeds);
    } else if e.Advance? && Queues(d, e.task).Some? {
      assert WorkerSound(d, d.engine.value);
      EnqueueKeepsOrdered(d.workers[d.engine.value], Queues(d, e.task).value);
    }
    hide Step, Consistent, Ordered, NeedsLoad, NewWorker, Enqueue, NextPc, CreatedAfter, ModelStateAfter, LockAfter;
    forall g | 0 <= g < |d'.workers| ensures WorkerSound(d', g) {
      if g < |d.workers| { assert WorkerSound(d, g); }
    }
  }

  // ---- Commands and answers

  lemma EnqueuePends(w: Worker, c: Command)
    ensures Pending(Enqueue(w, c)) == Pending(w) + [c]
  {}

  /** A step leaves the unfinished commands alone or finishes the first, answering its task. */
  lemma StepPends(w: Worker, succeeds: bool)
    requires CanStep(w) && Consistent(w)
    ensures var (w', reply) := Step(w, succeeds); var p, p' := Pending(w), Pending(w');
            && (p' == p || (p != [] && p' == p[1..]))
            && (reply.ReplyTo? ==> p != [] && p' == p[1..] && (p[0].Load? || p[0].Unload?) && p[0].task == reply.task)
  {
    var (w', reply) := Step(w, succeeds);
    if w.progress.Idle? {
      assert w.queue == [w.queue[0]] + w.queue[1..];
    } else {
      assert w'.queue == w.queue;
    }
  }

  lemma AskedStaysAsked(d: Daemon, t: TaskId, works: bool)
    requires EngineExists(d) && Enabled(d, Advance(t, works)) && !Early(d.tasks[t])
    ensures !Early(NextPc(d, t, works)) && NextPc(d, t, works) != EnsureAwait && NextPc(d, t, works) != UnloadAwait
    ensures ByWatchdog(NextPc(d, t, works)) ==> ByWatchdog(d.tasks[t])
  {}

  /** Whatever a task does, the commands already under way still fit. */
  lemma AdvanceKeepsFit(d: Daemon, t: TaskId, works: bool, g: EngineId, c: Command)
    requires Invariant(d) && Enabled(d, Advance(t, works)) && g < |d.workers| && CommandFits(d, g, c)
    ensures CommandFits(Next(d, Advance(t, works)), g, c)
  {
    if !Early(d.tasks[t]) { AskedStaysAsked(d, t, works); }
    if (c.Load? || c.Unload?) && c.task != t && Holds(d.tasks[c.task]) {
      assert d.lock == Some(c.task);
      assert !Holds(d.tasks[t]);
    }
    hide WorkersSound, CommandsFit, LoadedWhenDone, NextPc, Queues, NeedsLoad, NewWorker, Enqueue, ModelStateAfter,
      CreatedAfter, EngineAgrees;
  }

  /** A newly queued command fits, and its task has nothing else under way. */
  lemma QueuedFits(d: Daemon, t: TaskId, works: bool)
    requires Invariant(d) && Enabled(d, Advance(t, works)) && Queues(d, t).Some?
    ensures CommandFits(Next(d, Advance(t, works)), d.engine.value, Queues(d, t).value)
    ensures forall c :: c in Pending(d.workers[d.engine.value]) ==> !SameAsker(c, Queues(d, t).value)
  {
    var c, g := Queues(d, t).value, d.engine.value;
    if c.Load? || c.Unload? {
      assert Early(d.tasks[t]) && t !in d.replies;
    }
    assert WorkerFits(d, g);
    forall b | b in Pending(d.workers[g]) ensures !SameAsker(b, c) {
      assert CommandFits(d, g, b);
    }
    hide NeedsLoad, Pending;
  }

  lemma AdvanceKeepsCommands(d: Daemon, t: TaskId, works: bool)
    requires Invariant(d) && Enabled(d, Advance(t, works))
    ensures CommandsFit(Next(d, Advance(t, works)))
  {
    var d' := Next(d, Advance(t, works));
    if !Early(d.tasks[t]) { AskedStaysAsked(d, t, works); }
    assert forall u :: u in d'.replies ==> !NotAsked(d, u);
    forall g | 0 <= g < |d'.workers| ensures WorkerFits(d', g) {
      if g < |d.workers| {
        assert WorkerFits(d, g);
        forall c | c in Pending(d.workers[g]) ensures CommandFits(d', g, c) {
          AdvanceKeepsFit(d, t, works, g, c);
        }
        if d'.workers[g] != d.workers[g] {
          QueuedFits(d, t, works);
          EnqueuePends(d.workers[g], Queues(d, t).value);
        }
      }
    }
  }

  /** An answer to one task leaves the commands of the other tasks fitting. */
  lemma AnswerKeepsFit(d: Daemon, d': Daemon, g: EngineId, asked: Command, h: EngineId, c: Command)
    requires CommandFits(d, g, asked) && CommandFits(d, h, c)
    requires g == h ==> !SameAsker(asked, c)
    requires d'.tasks == d.tasks && d'.engine == d.engine
    requires || d'.replies == d.replies
             || ((asked.Load? || asked.Unload?) && d'.replies.Keys == d.replies.Keys + {asked.task})
    ensures CommandFits(d', h, c)
  {}

  /** The commands left at one worker after a step of another, or of its own. */
  lemma LeftFits(d: Daemon, d': Daemon, g: EngineId, asked: Command, h: EngineId, p: seq<Command>, p': seq<Command>)
    requires forall c :: c in p ==> CommandFits(d, h, c)
    requires NoRepeat(p)
    requires p' == p || (p != [] && p' == p[1..])
    requires CommandFits(d, g, asked)
    requires d'.tasks == d.tasks && d'.engine == d.engine
    requires || d'.replies == d.replies
             || ((asked.Load? || asked.Unload?) && d'.replies.Keys == d.replies.Keys + {asked.task}
                 && (g == h ==> p != [] && p[0] == asked && p' == p[1..]))
    ensures forall c :: c in p' ==> CommandFits(d', h, c)
    ensures NoRepeat(p')
  {
    forall c | c in p' ensures CommandFits(d', h, c) {
      var i :| 0 <= i < |p'| && p'[i] == c;
      assert c in p;
      if g == h && d'.replies != d.replies {
        assert !SameAsker(p[0], p[i + 1]);
        AnswerKeepsFit(d, d', g, asked, h, c);
      } else if g != h {
        AnswerKeepsFit(d, d', g, asked, h, c);
      } else {
        AnswerKeepsFit(d, d', h, Shutdown, h, c);
      }
    }
  }

  lemma StepLeavesFitting(d: Daemon, d': Daemon, g: EngineId, w': Worker, reply: Reply)
    requires CommandsFit(d) && g < |d.workers|
    requires d'.tasks == d.tasks && d'.engine == d.engine && d'.workers == d.workers[g := w']
    requires d'.replies == if reply.ReplyTo? then d.replies[reply.task := reply.ok] else d.replies
    requires var p, p' := Pending(d.workers[g]), Pending(w');
             && (p' == p || (p != [] && p' == p[1..]))
             && (reply.ReplyTo? ==> p != [] && p' == p[1..] && (p[0].Load? || p[0].Unload?) && p[0].task == reply.task)
    ensures CommandsFit(d')
  {
    assert WorkerFits(d, g);
    var p := Pending(d.workers[g]);
    var asked := if reply.ReplyTo? then p[0] else Shutdown;
    assert CommandFits(d, g, asked);
    hide Pending, NoRepeat;
    forall h | 0 <= h < |d'.workers| ensures WorkerFits(d', h) {
      assert WorkerFits(d, h);
      LeftFits(d, d', g, asked, h, Pending(d.workers[h]), Pending(d'.workers[h]));
    }
  }

  lemma WorkerStepKeepsCommands(d: Daemon, g: EngineId, succeeds: bool)
    requires Invariant(d) && Enabled(d, WorkerStep(g, succeeds))
    ensures CommandsFit(Next(d, WorkerStep(g, succeeds)))
  {
    var (w', reply) := Step(d.workers[g], succeeds);
    assert WorkerSound(d, g);
    StepPends(d.workers[g], succeeds);
    StepLeavesFitting(d, Next(d, WorkerStep(g, succeeds)), g, w', reply);
  }

  lemma NextKeepsCommands(d: Daemon, e: Event)
    requires Invariant(d) && Enabled(d, e)
    ensures CommandsFit(Next(d, e))
  {
    if e.Advance? { AdvanceKeepsCommands(d, e.task, e.works); }
    else if e.WorkerStep? { WorkerStepKeepsCommands(d, e.engine, e.succeeds); }
    else {
      var d' := Next(d, e);
      hide Enabled, WorkersSound, LoadedWhenDone, EngineAgrees, Pending;
      forall g | 0 <= g < |d'.workers| ensures WorkerFits(d', g) { assert WorkerFits(d, g); }
    }
  }

  // ---- The model is there when ensure_model_loaded says so

  /** No Unload is under way on the engine while another task owns the mutex. */
  lemma NoUnloadUnderWay(d: Daemon, t: TaskId)
    requires Invariant(d) && t < |d.tasks| && Holds(d.tasks[t]) && d.tasks[t] != UnloadAwait && d.engine.Some?
    ensures !Unloading(d.workers[d.engine.value])
  {
    var w := d.workers[d.engine.value];
    assert d.lock == Some(t);
    assert WorkerFits(d, d.engine.value);
    assert w.progress.Running? ==> Pending(w)[0] == w.progress.cmd && Pending(w)[0] in Pending(w);
  }

  lemma AdvanceKeepsLoaded(d: Daemon, t: TaskId, works: bool)
    requires Invariant(d) && Enabled(d, Advance(t, works))
    ensures LoadedWhenDone(Next(d, Advance(t, works)))
  {
    var d' := Next(d, Advance(t, works));
    NextKeepsLocked(d, Advance(t, works));
    if d.tasks[t] == EnsureCheck && !ShowsNoModel(d) {
      assert d.lock == Some(t);
      NoUnloadUnderWay(d, t);
      assert WorkerSound(d, d.engine.value);
      ModelShownIsThere(d.workers[d.engine.value]);
    }
    if d.tasks[t] == EnsureLoad { assert t !in d.replies; }
    forall u: TaskId | Trusting(d', u)
      ensures ModelLoaded(d')
    {
      assert d'.lock == Some(u);
      if u != t { assert Holds(d.tasks[u]) && d.lock == Some(u) && !Holds(d.tasks[t]); }
      if u != t || d.tasks[t] == EnsureAwait { assert Trusting(d, u); }
      hide NeedsLoad, Locked, WorkersSound, CommandsFit, NewWorker;
    }
  }

  lemma ModelShownIsThere(w: Worker)
    requires Consistent(w) && !Unloading(w) && w.name.Some?
    ensures w.model.Some?
  {}

  lemma LoadedAfterStep(d: Daemon, d': Daemon, g: EngineId, w': Worker, reply: Reply, u: TaskId)
    requires LoadedWhenDone(d) && d.engine.Some? && d.engine.value < |d.workers| && g < |d.workers|
    requires d'.tasks == d.tasks && d'.engine == d.engine && d'.workers == d.workers[g := w']
    requires d'.replies == if reply.ReplyTo? then d.replies[reply.task := reply.ok] else d.replies
    requires d.engine.value == g ==> (d.workers[g].model.Some? || (reply.ReplyTo? && reply.ok) ==> w'.model.Some?)
    requires u < |d.tasks| && reply.ReplyTo? && reply.task == u && d.tasks[u] == EnsureAwait ==> d.engine.value == g
    requires Trusting(d', u)
    ensures ModelLoaded(d')
  {
    assert Trusting(d, u) ==> ModelLoaded(d);
  }

  lemma WorkerStepKeepsLoaded(d: Daemon, g: EngineId, succeeds: bool)
    requires Invariant(d) && Enabled(d, WorkerStep(g, succeeds))
    ensures LoadedWhenDone(Next(d, WorkerStep(g, succeeds)))
  {
    var d', w := Next(d, WorkerStep(g, succeeds)), d.workers[g];
    var (w', reply) := Step(w, succeeds);
    forall u: TaskId | Trusting(d', u) ensures ModelLoaded(d') {
      EngineForTrusting(d, u);
      StepForEngine(d, g, succeeds, u);
      LoadedAfterStep(d, d', g, w', reply, u);
    }
  }

  lemma EngineForTrusting(d: Daemon, u: TaskId)
    requires Invariant(d) && u < |d.tasks| && (d.tasks[u] == EnsureRelease || d.tasks[u] == EnsureAwait)
    ensures d.engine.Some? && !Unloading(d.workers[d.engine.value])
  {
    assert Holds(d.tasks[u]) && d.lock == Some(u);
    assert EngineAt(d, d.tasks[u]);
    NoUnloadUnderWay(d, u);
  }

  lemma StepForEngine(d: Daemon, g: EngineId, succeeds: bool, u: TaskId)
    requires WorkersSound(d) && CommandsFit(d) && g < |d.workers| && CanStep(d.workers[g])
    requires d.engine.Some? && d.engine.value < |d.workers| && !Unloading(d.workers[d.engine.value])
    ensures var (w', reply) := Step(d.workers[g], succeeds);
            && (d.engine.value == g ==> (d.workers[g].model.Some? || (reply.ReplyTo? && reply.ok) ==> w'.model.Some?))
            && (u < |d.tasks| && reply.ReplyTo? && reply.task == u && d.tasks[u] == EnsureAwait ==> d.engine.value == g)
  {
    assert WorkerSound(d, g) && WorkerFits(d, g);
    StepPends(d.workers[g], succeeds);
    ModelStays(d.workers[g], succeeds);
    hide Step, Consistent, Ordered;
    if Step(d.workers[g], succeeds).1.ReplyTo? { assert CommandFits(d, g, Pending(d.workers[g])[0]); }
  }

  lemma NextKeepsLoaded(d: Daemon, e: Event)
    requires Invariant(d) && Enabled(d, e)
    ensures LoadedWhenDone(Next(d, e))
  {
    if e.Advance? { AdvanceKeepsLoaded(d, e.task, e.works); }
    else if e.WorkerStep? { WorkerStepKeepsLoaded(d, e.engine, e.succeeds); }
    else {
      forall u: TaskId | Trusting(Next(d, e), u) ensures ModelLoaded(d) { assert Trusting(d, u); }
    }
  }

  // ---- Whole runs

  lemma NextKeepsInvariant(d: Daemon, e: Event)
    requires Invariant(d) && Enabled(d, e)
    ensures Invariant(Next(d, e))
  {
    NextKeepsLocked(d, e);
    NextKeepsEngine(d, e);
    NextKeepsWorkers(d, e);
    NextKeepsCommands(d, e);
    NextKeepsLoaded(d, e);
  }

  ghost predicate Run(d: Daemon, es: seq<Event>, d': Daemon)
    decreases |es|
  {
    if es == [] then d' == d
    else EngineExists(d) && Enabled(d, es[0]) && Run(Next(d, es[0]), es[1..], d')
  }

  lemma {:induction false} RunKeepsInvariant(d: Daemon, es: seq<Event>, d': Daemon)
    requires Invariant(d) && Run(d, es, d')
    ensures Invariant(d')
    decreases |es|
  {
    if es != [] {
      NextKeepsInvariant(d, es[0]);
      RunKeepsInvariant(Next(d, es[0]), es[1..], d');
    }
  }

  /** Lifecycle agreement, in every reachable state. */
  lemma LifecycleAgreement(config: Config, es: seq<Event>, d: Daemon)
    requires Run(Initial(config), es, d)
    ensures d.lock.None? ==> (d.engineCreated <==> d.engine.Some?)
    ensures forall t: TaskId :: Trusting(d, t) ==> ModelLoaded(d)
    ensures forall g :: 0 <= g < |d.workers| && (d.workers[g].progress.Idle? || d.workers[g].progress.Stopped?) ==>
              Agrees(d.workers[g]) && (d.workers[g].model.None? ==> DefaultSizes(d.workers[g]))
  {
    InitialIsSound(config);
    RunKeepsInvariant(Initial(config), es, d);
    forall g | 0 <= g < |d.workers| ensures Consistent(d.workers[g]) { assert WorkerSound(d, g); }
  }

  /** ensure_model_loaded returns Ok only through the release of a mutex under which the model was there. */
  lemma OkMeansReleased(config: Config, es: seq<Event>, d: Daemon, e: Event, t: TaskId)
    requires Run(Initial(config), es, d) && EngineExists(d) && Enabled(d, e) && t < |d.tasks|
    requires Next(d, e).tasks[t] == EnsureFinish && d.tasks[t] != EnsureFinish
    ensures d.tasks[t] == EnsureRelease && d.lock == Some(t) && Next(d, e).lock == None && ModelLoaded(d)
  {
    InitialIsSound(config);
    RunKeepsInvariant(Initial(config), es, d);
    assert e.Advance? && e.task == t && d.tasks[t] == EnsureRelease;
    assert Trusting(d, t) && Holds(d.tasks[t]);
    hide WorkersAfter, EngineAfter, CreatedAfter, ModelStateAfter, Step;
  }

  /** And no request of any kind reports success before its last step. */
  lemma SuccessIsLast(d: Daemon, e: Event, t: TaskId)
    requires EngineExists(d) && Enabled(d, e) && t < |d.tasks|
    requires Next(d, e).tasks[t] == Finished(true) && d.tasks[t] != Finished(true)
    ensures d.tasks[t] in {EnsureFinish, UnloadRelease, GenerateRelease}
  {
    hide Queues, ShowsNoModel;
  }

  /** Worker protocol: nothing is sent after Shutdown, and whatever was accepted earlier is taken earlier. */
  lemma WorkerProtocol(config: Config, es: seq<Event>, d: Daemon, g: EngineId, i: nat, j: nat)
    requires Run(Initial(config), es, d) && g < |d.workers| && i < j < |d.workers[g].sent|
    ensures d.workers[g].sent[i] != Shutdown
    ensures j < |d.workers[g].taken| ==> d.workers[g].taken[i] == d.workers[g].sent[i]
  {
    InitialIsSound(config);
    RunKeepsInvariant(Initial(config), es, d);
    assert WorkerSound(d, g);
    if j < |d.workers[g].taken| { EarlierIsTakenFirst(d.workers[g], i, j); }
  }

  /**
   * Under the mutex a model is asked for exactly when the worker shows none, or shows one of the two names that
   * stand for none; a worker that is at rest with any other model is let alone.
   */
  lemma LoadsWhenNeeded(config: Config, es: seq<Event>, d: Daemon, t: TaskId, works: bool)
    requires Run(Initial(config), es, d) && EngineExists(d)
    requires Enabled(d, Advance(t, works)) && d.tasks[t] == EnsureCheck
    ensures d.engine.Some?
    ensures var (w, next) := (d.workers[d.engine.value], Next(d, Advance(t, works)));
      && next.tasks[t] == (if w.name in {None, Some("none"), Some("unloaded")} then EnsureLoad else EnsureRelease)
      && next.workers == d.workers
      && (w.progress.Idle? && w.model.Some? && w.model.value !in {"none", "unloaded"} ==>
            next.tasks[t] == EnsureRelease)
      && (w.progress.Idle? && w.model.None? ==> next.tasks[t] == EnsureLoad)
  {
    InitialIsSound(config);
    RunKeepsInvariant(Initial(config), es, d);
    assert Holds(d.tasks[t]) && d.lock == Some(t) && EngineAt(d, EnsureCheck);
    assert WorkerSound(d, d.engine.value);
  }

  // ---- Whole requests

  lemma {:induction false} RunsJoin(d: Daemon, a: seq<Event>, m: Daemon, b: seq<Event>, d': Daemon)
    requires Run(d, a, m) && Run(m, b, d')
    ensures Run(d, a + b, d')
    decreases |a|
  {
    hide Next, Enabled;
    if a == [] {
      assert a + b == b;
    } else {
      assert (a + b)[1..] == a[1..] + b;
      RunsJoin(Next(d, a[0]), a[1..], m, b, d');
    }
  }

  /** A run goes on with one task's next step. */
  lemma Advances(s: Daemon, es: seq<Event>, d: Daemon, t: TaskId) returns (d': Daemon)
    requires Run(s, es, d) && EngineExists(d) && Enabled(d, Advance(t, true))
    ensures d' == Next(d, Advance(t, true)) && Run(s, es + [Advance(t, true)], d') && EngineExists(d')
  {
    d' := Next(d, Advance(t, true));
    assert [Advance(t, true)][1..] == [] && Run(d', [], d');
    RunsJoin(s, es, d, [Advance(t, true)], d');
    hide Queues, NextPc, NewWorker, Run;
  }

  lemma Starts(d: Daemon, e: Event) returns (d': Daemon)
    requires EngineExists(d) && (e.StartEnsure? || e.StartUnload? || e.StartGenerate?)
    ensures d' == Next(d, e) && Run(d, [e], d')
  {
    d' := Next(d, e);
    assert [e][1..] == [] && Run(d', [], d');
  }

  /** From a free mutex and no engine, a request to ensure a model gets as far as queueing its Load. */
  lemma EnsureQueuesLoad(d: Daemon) returns (es: seq<Event>, d': Daemon)
    requires d.lock.None? && d.engine.None?
    ensures var t := |d.tasks|;
      && Run(d, es, d')
      && d' == Daemon(d.tasks + [EnsureAwait], Some(t), Some(|d.workers|), true, Loading,
                      d.workers + [Enqueue(NewWorker(d.config), Load(t, d.config))], d.replies, d.config)
  {
    hide Enqueue, Run;
    var t := |d.tasks|;
    var a := Advance(t, true);
    var m := Starts(d, StartEnsure);
    m := Advances(d, [StartEnsure], m, t);
    assert m == d.(tasks := d.tasks + [EnsureLocked], lock := Some(t));
    m := Advances(d, [StartEnsure] + [a], m, t);
    assert m == d.(tasks := d.tasks + [EnsureCreate], lock := Some(t), modelState := Loading);
    m := Advances(d, [StartEnsure] + [a] + [a], m, t);
    m := Advances(d, [StartEnsure] + [a] + [a] + [a], m, t);
    assert m == d.(tasks := d.tasks + [EnsureCheck], lock := Some(t), modelState := Loading,
                   engine := Some(|d.workers|), engineCreated := true, workers := d.workers + [NewWorker(d.config)]);
    m := Advances(d, [StartEnsure] + [a] + [a] + [a] + [a], m, t);
    d' := Advances(d, [StartEnsure] + [a] + [a] + [a] + [a] + [a], m, t);
    es := [StartEnsure] + [a] + [a] + [a] + [a] + [a] + [a];
  }

  function Answered(d: Daemon, reply: Reply): map<TaskId, bool> {
    if reply.ReplyTo? then d.replies[reply.task := reply.ok] else d.replies
  }

  lemma {:induction false} WorkerFinishes(d: Daemon, g: EngineId, succeeds: bool) returns (es: seq<Event>, d': Daemon)
    requires EngineExists(d) && g < |d.workers| && Consistent(d.workers[g]) && d.workers[g].progress.Running?
    ensures Run(d, es, d')
    ensures var (w, reply) := Finish(d.workers[g], succeeds);
      d' == d.(workers := d.workers[g := w], replies := Answered(d, reply))
    decreases 4 - d.workers[g].progress.stage
  {
    StepKeepsConsistent(d.workers[g], succeeds);
    var m := Next(d, WorkerStep(g, succeeds));
    assert Step(d.workers[g], succeeds).0.progress.Running? ==> Step(d.workers[g], succeeds).1.NoReply?;
    hide Step, Consistent, NextPc, Queues, WorkersAfter;
    if m.workers[g].progress.Running? {
      es, d' := WorkerFinishes(m, g, succeeds);
      es := [WorkerStep(g, succeeds)] + es;
    } else {
      es, d' := [WorkerStep(g, succeeds)], m;
      assert es[1..] == [];
    }
  }

  /** The worker can always take its next command and finish it. */
  lemma WorkerServes(d: Daemon, g: EngineId, succeeds: bool) returns (es: seq<Event>, d': Daemon)
    requires EngineExists(d) && g < |d.workers| && Consistent(d.workers[g]) && d.workers[g].progress.Idle?
    requires d.workers[g].queue != [] && !d.workers[g].queue[0].Shutdown?
    ensures Run(d, es, d')
    ensures var (w, reply) := Serve(d.workers[g], succeeds);
      d' == d.(workers := d.workers[g := w], replies := Answered(d, reply))
  {
    StepKeepsConsistent(d.workers[g], succeeds);
    var m := Next(d, WorkerStep(g, succeeds));
    es, d' := WorkerFinishes(m, g, succeeds);
    hide Step, Consistent, Finish;
    es := [WorkerStep(g, succeeds)] + es;
  }

  /**
   * From any reachable state without an engine and with the mutex free, a request to ensure a model can run to its
   * end; it answers what the load answered, and the model that is then in force is the one configured.
   */
  lemma EnsureCompletes(config: Config, before: seq<Event>, d: Daemon, succeeds: bool)
    returns (es: seq<Event>, d': Daemon)
    requires Run(Initial(config), before, d) && d.lock.None? && d.engine.None?
    ensures Run(d, es, d') && |d'.tasks| == |d.tasks| + 1 && d'.tasks[|d.tasks|] == Finished(succeeds)
    ensures d'.lock.None? && d'.engineCreated && d'.engine == Some(|d.workers|) && |d'.workers| == |d.workers| + 1
    ensures var w := d'.workers[|d.workers|];
      && w.progress.Idle? && w.queue == [] && (w.isLoaded <==> succeeds)
      && (succeeds ==>
            && d'.modelState == Ready && w.model == Some(d.config.name)
            && w.contextLength == d.config.contextLength && w.batchSize == d.config.batchSize)
  {
    var (t, g) := (|d.tasks|, |d.workers|);
    var first, loading := EnsureQueuesLoad(d);
    var w := Enqueue(NewWorker(d.config), Load(t, d.config));
    NewWorkerIsSound(d.config);
    EnqueueKeepsOrdered(NewWorker(d.config), Load(t, d.config));
    LoadTakesEffect(w, succeeds);
    var second, loaded := WorkerServes(loading, g, succeeds);
    RunsJoin(d, first, loading, second, loaded);
    hide Run, Serve, Consistent, Ordered, Enqueue, NewWorker;
    var third;
    third, d' := EnsureReturns(loaded, t);
    RunsJoin(d, first + second, loaded, third, d');
    es := first + second + third;
  }

  /** From its answer on, the request runs to its end by itself. */
  lemma EnsureReturns(d: Daemon, t: TaskId) returns (es: seq<Event>, d': Daemon)
    requires EngineExists(d) && t < |d.tasks| && d.tasks[t] == EnsureAwait && t in d.replies && d.lock == Some(t)
    ensures Run(d, es, d')
    ensures d' == d.(tasks := d.tasks[t := Finished(d.replies[t])], lock := None,
                     modelState := if d.replies[t] then Ready else d.modelState)
  {
    assert Run(d, [], d);
    hide Run;
    var a := Advance(t, true);
    d' := Advances(d, [], d, t);
    es := [] + [a];
    if d.replies[t] { es, d' := EnsureLeaves(d, es, d', t); }
  }

  lemma EnqueueSends(w: Worker, c: Command)
    ensures Enqueue(w, c).sent == w.sent + [c]
  {}

  /** With a model in place the request needs nothing from the worker and changes nothing but the reported state. */
  lemma EnsureFindsModel(d: Daemon) returns (es: seq<Event>, d': Daemon)
    requires d.lock.None? && d.engine.Some? && EngineExists(d) && !ShowsNoModel(d)
    ensures Run(d, es, d') && d' == d.(tasks := d.tasks + [Finished(true)], modelState := Ready)
  {
    hide Run, NeedsLoad;
    var t := |d.tasks|;
    var a := Advance(t, true);
    var m := Starts(d, StartEnsure);
    m := Advances(d, [StartEnsure], m, t);
    m := Advances(d, [StartEnsure] + [a], m, t);
    assert m == d.(tasks := d.tasks + [EnsureCheck], lock := Some(t));
    m := Advances(d, [StartEnsure] + [a] + [a], m, t);
    assert m == d.(tasks := d.tasks + [EnsureRelease], lock := Some(t));
    es, d' := EnsureLeaves(d, [StartEnsure] + [a] + [a] + [a], m, t);
  }

  lemma EnsureLeaves(s: Daemon, before: seq<Event>, d: Daemon, t: TaskId) returns (es: seq<Event>, d': Daemon)
    requires Run(s, before, d) && EngineExists(d) && t < |d.tasks| && d.tasks[t] == EnsureRelease && d.lock == Some(t)
    ensures Run(s, es, d') && d' == d.(tasks := d.tasks[t := Finished(true)], lock := None, modelState := Ready)
  {
    hide Run;
    var a := Advance(t, true);
    var m := Advances(s, before, d, t);
    d' := Advances(s, before + [a], m, t);
    es := before + [a] + [a];
  }

  lemma GenerateReturns(s: Daemon, before: seq<Event>, d: Daemon, t: TaskId) returns (es: seq<Event>, d': Daemon)
    requires Run(s, before, d) && EngineExists(d) && t < |d.tasks| && d.tasks[t] == GenerateLocked && d.lock == Some(t)
    ensures Run(s, es, d')
    ensures d' == d.(tasks := d.tasks[t := Finished(d.engine.Some?)], lock := None, workers := d'.workers)
    ensures d'.workers == if d.engine.None? then d.workers
                          else d.workers[d.engine.value := Enqueue(d.workers[d.engine.value], Generate(t))]
  {
    hide Run, Enqueue;
    d' := Advances(s, before, d, t);
    es := before + [Advance(t, true)];
    if d.engine.Some? {
      d' := Advances(s, es, d', t);
      es := es + [Advance(t, true)];
    }
  }

  /** With an engine a generation is queued, once, behind all that was sent before; without one it is refused. */
  lemma GenerateCompletes(d: Daemon) returns (es: seq<Event>, d': Daemon)
    requires d.lock.None? && EngineExists(d)
    ensures Run(d, es, d') && d'.tasks == d.tasks + [Finished(d.engine.Some?)]
    ensures d' == d.(tasks := d'.tasks, workers := d'.workers) && |d'.workers| == |d.workers|
    ensures forall g :: 0 <= g < |d.workers| ==>
              d'.workers[g].sent == d.workers[g].sent + if d.engine == Some(g) then [Generate(|d.tasks|)] else []
  {
    hide Run;
    var t := |d.tasks|;
    var m := Starts(d, StartGenerate);
    m := Advances(d, [StartGenerate], m, t);
    assert m == d.(tasks := d.tasks + [GenerateLocked], lock := Some(t));
    hide Next;
    es, d' := GenerateReturns(d, [StartGenerate] + [Advance(t, true)], m, t);
  }

  /** And an unload of a worker at rest: afterwards there is no engine, its flag is down, and the model is gone. */
  lemma UnloadCompletes(config: Config, before: seq<Event>, d: Daemon) returns (es: seq<Event>, d': Daemon)
    requires Run(Initial(config), before, d) && d.lock.None? && d.engine.Some? && EngineExists(d)
    requires d.workers[d.engine.value].progress.Idle? && d.workers[d.engine.value].queue == []
    ensures Run(d, es, d') && |d'.tasks| == |d.tasks| + 1 && d'.tasks[|d.tasks|] == Finished(true)
    ensures d'.lock.None? && !d'.engineCreated && d'.engine.None? && d'.modelState == Unloaded
    ensures |d'.workers| == |d.workers|
    ensures var w := d'.workers[d.engine.value]; w.model.None? && !w.isLoaded && w.queue == [Shutdown]
  {
    var (t, g) := (|d.tasks|, d.engine.value);
    InitialIsSound(config);
    RunKeepsInvariant(Initial(config), before, d);
    assert WorkerSound(d, g);
    var first, asked := UnloadAsks(d);
    var w := Enqueue(d.workers[g], Unload(t));
    EnqueueKeepsOrdered(d.workers[g], Unload(t));
    UnloadTakesEffect(w, true);
    var second, unloaded := WorkerServes(asked, g, true);
    RunsJoin(d, first, asked, second, unloaded);
    hide Run, Serve, Consistent, Ordered;
    var third;
    third, d' := UnloadReturns(unloaded, t);
    RunsJoin(d, first + second, unloaded, third, d');
    es := first + second + third;
  }

  lemma UnloadAsks(d: Daemon) returns (es: seq<Event>, d': Daemon)
    requires d.lock.None? && d.engine.Some? && EngineExists(d)
    ensures var (t, g) := (|d.tasks|, d.engine.value);
      && Run(d, es, d')
      && d' == d.(tasks := d.tasks + [UnloadAwait], lock := Some(t), modelState := UnloadingState,
                  workers := d.workers[g := Enqueue(d.workers[g], Unload(t))])
  {
    hide Enqueue, Run;
    var t := |d.tasks|;
    var a := Advance(t, true);
    var m := Starts(d, StartUnload);
    m := Advances(d, [StartUnload], m, t);
    m := Advances(d, [StartUnload] + [a], m, t);
    assert m == d.(tasks := d.tasks + [UnloadLocked], lock := Some(t), modelState := UnloadingState);
    d' := Advances(d, [StartUnload] + [a] + [a], m, t);
    es := [StartUnload] + [a] + [a] + [a];
  }

  lemma UnloadReturns(d: Daemon, t: TaskId) returns (es: seq<Event>, d': Daemon)
    requires d.engine.Some? && EngineExists(d) && t < |d.tasks| && d.tasks[t] == UnloadAwait && t in d.replies
    requires d.lock == Some(t)
    ensures Run(d, es, d')
    ensures var g := d.engine.value;
      d' == d.(tasks := d.tasks[t := Finished(true)], lock := None, engine := None, engineCreated := false,
               modelState := Unloaded, workers := d.workers[g := Enqueue(d.workers[g], Shutdown)])
  {
    assert Run(d, [], d);
    hide Enqueue, Run;
    var a := Advance(t, true);
    var m := Advances(d, [], d, t);
    assert m == d.(tasks := d.tasks[t := UnloadDrop]);
    m := Advances(d, [] + [a], m, t);
    es, d' := UnloadReleases(d, [] + [a] + [a], m, t);
  }

  lemma UnloadReleases(s: Daemon, before: seq<Event>, d: Daemon, t: TaskId) returns (es: seq<Event>, d': Daemon)
    requires Run(s, before, d) && EngineExists(d) && t < |d.tasks| && d.tasks[t] == UnloadFlag && d.lock == Some(t)
    ensures Run(s, es, d')
    ensures d' == d.(tasks := d.tasks[t := Finished(true)], lock := None, engineCreated := false,
                     modelState := Unloaded)
  {
    hide Enqueue, Run;
    var a := Advance(t, true);
    var m := Advances(s, before, d, t);
    assert m == d.(tasks := d.tasks[t := UnloadMark], engineCreated := false);
    m := Advances(s, before + [a], m, t);
    d' := Advances(s, before + [a] + [a], m, t);
    es := before + [a] + [a] + [a];
  }
}
