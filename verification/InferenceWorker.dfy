/** The inference worker: an actor that owns the model and takes commands from a queue, one at a time. */
module InferenceWorker {
  import opened Wrappers

  type TaskId = nat

  datatype Config = Config(name: string, contextLength: nat, batchSize: nat)

  datatype Command = Load(task: TaskId, cfg: Config) | Unload(task: TaskId) | Generate(task: TaskId) | Shutdown

  /** Between two commands, or so many steps into one. */
  datatype Progress = Idle | Running(cmd: Command, stage: nat) | Stopped

  datatype Worker = Worker(
    queue: seq<Command>, sent: seq<Command>, taken: seq<Command>,   // taken in order; sent keeps the whole history
    progress: Progress,
    model: Option<string>, name: Option<string>, isLoaded: bool, contextLength: nat, batchSize: nat,
    defaults: Config)

  function NewWorker(defaults: Config): Worker {
    Worker([], [], [], Idle, None, None, false, defaults.contextLength, defaults.batchSize, defaults)
  }

  function Enqueue(w: Worker, c: Command): Worker {
    w.(queue := w.queue + [c], sent := w.sent + [c])
  }

  predicate CanStep(w: Worker) {
    match w.progress
    case Idle => w.queue != []
    case Running(_, _) => true
    case Stopped => false
  }

  /** The answer a step sends, to whom. */
  datatype Reply = NoReply | ReplyTo(task: TaskId, ok: bool)

  /** One atomic step; `succeeds` decides whether a load started now works. */
  function Step(w: Worker, succeeds: bool): (Worker, Reply)
    requires CanStep(w)
  {
    match w.progress
    case Idle =>
      var c := w.queue[0];
      (w.(queue := w.queue[1..], taken := w.taken + [c], progress := if c.Shutdown? then Stopped else Running(c, 0)),
       NoReply)
    case Running(c, stage) =>
      match c
      case Load(task, cfg) => StepLoad(w, stage, task, cfg, succeeds)
      case Unload(task) => StepUnload(w, stage, task)
      case Generate(_) => (StepGenerate(w, stage, succeeds), NoReply)
      case Shutdown => (w, NoReply)
  }

  function StepLoad(w: Worker, stage: nat, task: TaskId, cfg: Config, succeeds: bool): (Worker, Reply)
    requires w.progress.Running?
  {
    var next := w.(progress := w.progress.(stage := stage + 1));
    if stage == 0 then
      if succeeds then (next.(model := Some(cfg.name)), NoReply)
      else (w.(progress := Idle), ReplyTo(task, false))
    else if stage == 1 then (next.(name := Some(cfg.name)), NoReply)
    else if stage == 2 then (next.(isLoaded := true), NoReply)
    else (w.(contextLength := cfg.contextLength, batchSize := cfg.batchSize, progress := Idle), ReplyTo(task, true))
  }

  function StepUnload(w: Worker, stage: nat, task: TaskId): (Worker, Reply)
    requires w.progress.Running?
  {
    var next := w.(progress := w.progress.(stage := stage + 1));
    if stage == 0 then (next.(model := None), NoReply)
    else if stage == 1 then (next.(name := None), NoReply)
    else if stage == 2 then
      (next.(contextLength := w.defaults.contextLength, batchSize := w.defaults.batchSize), NoReply)
    else (w.(isLoaded := false, progress := Idle), ReplyTo(task, true))
  }

  /** Without a model the default one is loaded first; the sizes in force are left alone. */
  function StepGenerate(w: Worker, stage: nat, succeeds: bool): Worker
    requires w.progress.Running?
  {
    var next := w.(progress := w.progress.(stage := stage + 1));
    if stage == 0 then
      if w.model.Some? then w.(progress := w.progress.(stage := 3))
      else if succeeds then next.(model := Some(w.defaults.name))
      else w.(progress := Idle)
    else if stage == 1 then next.(name := Some(w.defaults.name))
    else if stage == 2 then next.(isLoaded := true)
    else w.(progress := Idle)
  }

  // ---- What the worker keeps

  predicate Agrees(w: Worker) {
    w.name == w.model && (w.isLoaded <==> w.model.Some?)
  }

  predicate DefaultSizes(w: Worker) {
    w.contextLength == w.defaults.contextLength && w.batchSize == w.defaults.batchSize
  }

  predicate Unloading(w: Worker) {
    w.progress.Running? && w.progress.cmd.Unload?
  }

  /** Flags, name and model agree between commands; in the middle of one they are on the way. */
  predicate Consistent(w: Worker) {
    && (w.model.None? && !(Unloading(w) && w.progress.stage <= 2) ==> DefaultSizes(w))
    && match w.progress
       case Idle => Agrees(w)
       case Stopped => Agrees(w)
       case Running(Load(_, cfg), stage) =>
         && stage <= 3
         && (stage == 0 ==> Agrees(w))
         && (stage == 1 ==> w.model == Some(cfg.name) && (w.isLoaded <==> w.name.Some?))
         && (stage == 2 ==> w.model.Some? && w.name == w.model)
         && (stage == 3 ==> w.model.Some? && Agrees(w))
       case Running(Unload(_), stage) =>
         && stage <= 3
         && (stage == 0 ==> Agrees(w))
         && (stage >= 1 ==> w.model.None?)
         && (stage >= 2 ==> w.name.None?)
       case Running(Generate(_), stage) =>
         && stage <= 3
         && (stage == 0 || stage == 3 ==> Agrees(w))
         && (stage == 1 ==> w.model == Some(w.defaults.name) && w.name.None? && !w.isLoaded)
         && (stage == 2 ==> w.model.Some? && w.name == w.model)
       case Running(Shutdown, _) => false
  }

  lemma StepKeepsConsistent(w: Worker, succeeds: bool)
    requires CanStep(w) && Consistent(w)
    ensures Consistent(Step(w, succeeds).0)
  {}

  /** Only an Unload takes the model away, and a positive answer to a Load means there is one. */
  lemma ModelStays(w: Worker, succeeds: bool)
    requires CanStep(w) && Consistent(w)
    ensures var (w', reply) := Step(w, succeeds);
            && (w.model.Some? && !Unloading(w) ==> w'.model.Some?)
            && (reply.ReplyTo? && reply.ok && !Unloading(w) ==> w'.model.Some?)
            && (w.name.Some? && !Unloading(w) ==> w.model.Some?)
  {}

  // ---- What a whole command does

  /** Steps until the command in progress is finished, and the answer that was sent. */
  function Finish(w: Worker, succeeds: bool): (r: (Worker, Reply))
    requires Consistent(w) && w.progress.Running?
    ensures Consistent(r.0) && r.0.progress.Idle?
    decreases 4 - w.progress.stage
  {
    StepKeepsConsistent(w, succeeds);
    var (w', reply) := Step(w, succeeds);
    if w'.progress.Running? then Finish(w', succeeds) else (w', reply)
  }

  /** The next command is taken and finished. */
  function Serve(w: Worker, succeeds: bool): (r: (Worker, Reply))
    requires Consistent(w) && w.progress.Idle? && w.queue != [] && !w.queue[0].Shutdown?
    ensures Consistent(r.0) && r.0.progress.Idle?
  {
    StepKeepsConsistent(w, succeeds);
    Finish(Step(w, succeeds).0, succeeds)
  }

  /** A load puts the model, its name and its sizes into force, all of them, or leaves everything as it was. */
  lemma LoadTakesEffect(w: Worker, succeeds: bool)
    requires Consistent(w) && w.progress.Idle? && w.queue != [] && w.queue[0].Load?
    ensures var (w', reply) := Serve(w, succeeds); var cfg := w.queue[0].cfg;
      && reply == ReplyTo(w.queue[0].task, succeeds) && w'.queue == w.queue[1..]
      && (succeeds ==>
            && w'.model == Some(cfg.name) && w'.name == Some(cfg.name) && w'.isLoaded
            && w'.contextLength == cfg.contextLength && w'.batchSize == cfg.batchSize)
      && (!succeeds ==>
            && w'.model == w.model && w'.name == w.name && w'.isLoaded == w.isLoaded
            && w'.contextLength == w.contextLength && w'.batchSize == w.batchSize)
  {
    var w0 := Step(w, succeeds).0;
    StepKeepsConsistent(w, succeeds);
    var w1 := Step(w0, succeeds).0;
    StepKeepsConsistent(w0, succeeds);
    if succeeds {
      var w2 := Step(w1, succeeds).0;
      StepKeepsConsistent(w1, succeeds);
      var w3 := Step(w2, succeeds).0;
      StepKeepsConsistent(w2, succeeds);
      assert Finish(w3, succeeds) == Step(w3, succeeds);
      assert Finish(w2, succeeds) == Finish(w3, succeeds);
      assert Finish(w1, succeeds) == Finish(w2, succeeds);
    }
  }

  /** An unload takes the model away and brings the default sizes back; it cannot fail. */
  lemma UnloadTakesEffect(w: Worker, succeeds: bool)
    requires Consistent(w) && w.progress.Idle? && w.queue != [] && w.queue[0].Unload?
    ensures var (w', reply) := Serve(w, succeeds);
      && reply == ReplyTo(w.queue[0].task, true) && w'.queue == w.queue[1..]
      && w'.model.None? && w'.name.None? && !w'.isLoaded
      && w'.contextLength == w.defaults.contextLength && w'.batchSize == w.defaults.batchSize
  {
    var w0 := Step(w, succeeds).0;
    StepKeepsConsistent(w, succeeds);
    var w1 := Step(w0, succeeds).0;
    StepKeepsConsistent(w0, succeeds);
    var w2 := Step(w1, succeeds).0;
    StepKeepsConsistent(w1, succeeds);
    var w3 := Step(w2, succeeds).0;
    StepKeepsConsistent(w2, succeeds);
    assert Finish(w3, succeeds) == Step(w3, succeeds);
    assert Finish(w2, succeeds) == Finish(w3, succeeds);
    assert Finish(w1, succeeds) == Finish(w2, succeeds);
  }

  /** A generation loads the default model if there is none, and changes nothing else. */
  lemma GenerateTakesEffect(w: Worker, succeeds: bool)
    requires Consistent(w) && w.progress.Idle? && w.queue != [] && w.queue[0].Generate?
    ensures var w' := Serve(w, succeeds).0;
      && w'.queue == w.queue[1..] && w'.contextLength == w.contextLength && w'.batchSize == w.batchSize
      && w'.model == (if w.model.None? && succeeds then Some(w.defaults.name) else w.model)
      && w'.name == w'.model && (w'.isLoaded <==> w'.model.Some?)
  {
    var w0 := Step(w, succeeds).0;
    StepKeepsConsistent(w, succeeds);
    var w1 := Step(w0, succeeds).0;
    StepKeepsConsistent(w0, succeeds);
    if w.model.None? && succeeds {
      var w2 := Step(w1, succeeds).0;
      StepKeepsConsistent(w1, succeeds);
      var w3 := Step(w2, succeeds).0;
      StepKeepsConsistent(w2, succeeds);
      assert Finish(w3, succeeds) == Step(w3, succeeds);
      assert Finish(w2, succeeds) == Finish(w3, succeeds);
      assert Finish(w1, succeeds) == Finish(w2, succeeds);
    } else if w.model.Some? {
      assert Finish(w1, succeeds) == Step(w1, succeeds);
    }
  }

  // ---- The queue

  /** Commands are taken in the order they were sent, and nothing follows a Shutdown. */
  ghost predicate Ordered(w: Worker) {
    && w.sent == w.taken + w.queue
    && (forall i :: 0 <= i < |w.sent| && w.sent[i].Shutdown? ==> i == |w.sent| - 1)
    && (w.progress.Running? ==> w.taken != [] && w.taken[|w.taken| - 1] == w.progress.cmd)
    && (w.progress.Stopped? ==> w.taken != [] && w.taken[|w.taken| - 1].Shutdown?)
  }

  /** In the middle of a command the queue is left alone. */
  lemma RunningKeepsQueue(w: Worker, succeeds: bool)
    requires w.progress.Running?
    ensures var w' := Step(w, succeeds).0;
      && w'.queue == w.queue && w'.sent == w.sent && w'.taken == w.taken
      && (w'.progress.Idle? || (w'.progress.Running? && w'.progress.cmd == w.progress.cmd))
  {}

  lemma StepKeepsOrdered(w: Worker, succeeds: bool)
    requires CanStep(w) && Ordered(w)
    ensures Ordered(Step(w, succeeds).0)
  {
    hide StepLoad, StepUnload, StepGenerate;
    if w.progress.Running? { RunningKeepsQueue(w, succeeds); }
    if w.progress.Idle? {
      assert w.taken + w.queue == (w.taken + [w.queue[0]]) + w.queue[1..];
    }
  }

  lemma StepKeepsSent(w: Worker, succeeds: bool)
    requires CanStep(w)
    ensures Step(w, succeeds).0.sent == w.sent
  {}

  lemma NewWorkerIsSound(defaults: Config)
    ensures Consistent(NewWorker(defaults)) && Ordered(NewWorker(defaults)) && NewWorker(defaults).sent == []
  {}

  lemma EnqueueKeepsOrdered(w: Worker, c: Command)
    requires Ordered(w) && Shutdown !in w.sent
    ensures Ordered(Enqueue(w, c)) && (Consistent(w) ==> Consistent(Enqueue(w, c)))
    ensures c != Shutdown ==> Shutdown !in Enqueue(w, c).sent
  {
    assert w.taken + w.queue + [c] == w.taken + (w.queue + [c]);
  }

  /** What was sent earlier has been taken by the time something later has. */
  lemma EarlierIsTakenFirst(w: Worker, i: nat, j: nat)
    requires Ordered(w) && i < j < |w.sent| && j < |w.taken|
    ensures w.taken[i] == w.sent[i] && w.taken[j] == w.sent[j]
  {}

  /** After Shutdown the queue is empty for good. */
  lemma StoppedIsTheEnd(w: Worker)
    requires Ordered(w) && w.progress.Stopped?
    ensures w.queue == []
  {
    var k := |w.taken| - 1;
    assert w.sent[k] == w.taken[k];
  }
}
