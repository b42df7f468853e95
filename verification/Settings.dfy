/** Settings held in memory and persisted by whole snapshots, under any interleaving of set requests. */
module Settings {
  import opened Blank

  type Store = map<string, string>

  /** What stands at the configured path; the text format is a faithful picture of a store. */
  datatype File = Absent | Contents(store: Store) | Malformed

  /** A temporary file; a failed write may leave anything. */
  datatype Temp = Full(store: Store) | Partial

  /**
   * How far a set request has come. `at` is the number of insertions into the store up to and with its own,
   * `snap` the number when it serialised the store.
   */
  datatype Stage =
    | Arrived
    | Inserted(at: nat)
    | Serialised(at: nat, snap: nat, content: Store)
    | Written(at: nat, snap: nat)
    | Renamed(at: nat, snap: nat)  // answered: success
    | Skipped(at: nat)             // answered: success, though nothing was written
    | Failed                       // answered: failed to persist
    | Rejected                     // answered: invalid argument

  datatype Call = Call(key: string, value: string, stage: Stage)

  datatype State = State(
    store: Store,
    file: File,
    temps: map<nat, Temp>,           // by the call that owns the name
    calls: seq<Call>,
    initial: File,                   // what was loaded at the start
    inserts: seq<(string, string)>,  // history: every insertion into the store
    renames: seq<(nat, nat)>)        // history: the call and how many insertions its snapshot holds

  datatype Event =
    | Arrive(key: string, value: string)
    | Insert(call: nat)
    | Serialise(call: nat, ok: bool)
    | Write(call: nat, ok: bool)
    | Rename(call: nat, ok: bool)

  // ---- Start

  const DEFAULTS: Store := map[
    "ai.mode" := "ondemand",
    "ai.inactivity_timeout_secs" := "300",
    "ai.model_path" := "/var/lib/niraos/models/default.gguf"]

  /** A missing file seeds the defaults; one that does not parse leaves the store empty. */
  function Load(file: File): Store {
    match file
    case Absent => DEFAULTS
    case Contents(m) => m
    case Malformed => map[]
  }

  /** What a service that finds no file starts with. */
  lemma DefaultSettings(key: string)
    ensures key in Load(Absent) <==>
              key == "ai.mode" || key == "ai.inactivity_timeout_secs" || key == "ai.model_path"
    ensures Load(Absent)["ai.mode"] == "ondemand" && Load(Absent)["ai.inactivity_timeout_secs"] == "300"
    ensures Load(Absent)["ai.model_path"] == "/var/lib/niraos/models/default.gguf"
  {
    assert |"ai.mode"| == 7 && |"ai.inactivity_timeout_secs"| == 26 && |"ai.model_path"| == 13;
  }

  function Start(file: File): State {
    State(Load(file), file, map[], [], file, [], [])
  }

  // ---- Steps

  function SetStage(s: State, c: nat, stage: Stage): State
    requires c < |s.calls|
  {
    s.(calls := s.calls[c := s.calls[c].(stage := stage)])
  }

  predicate Enabled(s: State, e: Event) {
    match e
    case Arrive(_, _) => true
    case Insert(c) => c < |s.calls| && s.calls[c].stage.Arrived?
    case Serialise(c, _) => c < |s.calls| && s.calls[c].stage.Inserted?
    case Write(c, _) => c < |s.calls| && s.calls[c].stage.Serialised?
    case Rename(c, _) => c < |s.calls| && s.calls[c].stage.Written? && (e.ok ==> c in s.temps && s.temps[c].Full?)
  }

  /** One step of one call between two of its suspension points. */
  function Step(s: State, e: Event): State
    requires Enabled(s, e)
  {
    match e
    case Arrive(key, value) =>
      s.(calls := s.calls + [Call(key, value, if IsBlank(key) then Rejected else Arrived)])
    case Insert(c) =>
      var call := s.calls[c];
      SetStage(s, c, Inserted(|s.inserts| + 1))
        .(store := s.store[call.key := call.value], inserts := s.inserts + [(call.key, call.value)])
    case Serialise(c, ok) =>
      if s.store == map[] then SetStage(s, c, Skipped(s.calls[c].stage.at))
      else if !ok then SetStage(s, c, Failed)
      else SetStage(s, c, Serialised(s.calls[c].stage.at, |s.inserts|, s.store))
    case Write(c, ok) =>
      if !ok then SetStage(s, c, Failed).(temps := s.temps[c := Partial])
      else
        SetStage(s, c, Written(s.calls[c].stage.at, s.calls[c].stage.snap))
          .(temps := s.temps[c := Full(s.calls[c].stage.content)])
    case Rename(c, ok) =>
      if !ok then SetStage(s, c, Failed)
      else SetStage(s, c, Renamed(s.calls[c].stage.at, s.calls[c].stage.snap))
             .(file := Contents(s.temps[c].store), temps := s.temps - {c},
               renames := s.renames + [(c, s.calls[c].stage.snap)])
  }

  /** A step that fails is answered as a failure, and the file, like the store, stays what it was. */
  lemma FailureIsReported(s: State, e: Event)
    requires Enabled(s, e) && s.store != map[]
    requires (e.Serialise? || e.Write? || e.Rename?) && !e.ok
    ensures var t := Step(s, e); t.calls[e.call].stage == Failed && t.file == s.file && t.store == s.store
  {}

  ghost predicate Reaches(s: State, events: seq<Event>, t: State)
    decreases |events|
  {
    if events == [] then t == s
    else Enabled(s, events[0]) && Reaches(Step(s, events[0]), events[1..], t)
  }

  // ---- Earlier states of the store

  function StoreAfter(start: Store, inserts: seq<(string, string)>): Store {
    if inserts == [] then start
    else
      var last := inserts[|inserts| - 1];
      StoreAfter(start, inserts[..|inserts| - 1])[last.0 := last.1]
  }

  /** The store as it was after the first `n` insertions. */
  function Earlier(s: State, n: nat): Store
    requires n <= |s.inserts|
  {
    StoreAfter(Load(s.initial), s.inserts[..n])
  }

  /** The value in a snapshot of `n` insertions is that of insertion `at` or of a later one for the key. */
  ghost predicate OwnOrLater(s: State, at: nat, n: nat, key: string) {
    && 1 <= at <= n <= |s.inserts| && key in Earlier(s, n)
    && exists j | at - 1 <= j < n :: s.inserts[j] == (key, Earlier(s, n)[key])
  }

  lemma {:induction false} OwnValueOrLater(s: State, at: nat, n: nat)
    requires 1 <= at <= n <= |s.inserts|
    ensures OwnOrLater(s, at, n, s.inserts[at - 1].0)
    decreases n
  {
    var key := s.inserts[at - 1].0;
    assert s.inserts[..n][..n - 1] == s.inserts[..n - 1];
    if s.inserts[n - 1].0 == key {
      assert s.inserts[n - 1] == (key, Earlier(s, n)[key]);
    } else {
      OwnValueOrLater(s, at, n - 1);
      var j :| at - 1 <= j < n - 1 && s.inserts[j] == (key, Earlier(s, n - 1)[key]);
      assert s.inserts[j] == (key, Earlier(s, n)[key]);
    }
  }

  // ---- The invariant of every interleaving

  predicate HasSnap(g: Stage) {
    g.Serialised? || g.Written? || g.Renamed?
  }

  predicate HasInserted(g: Stage) {
    g.Inserted? || HasSnap(g)
  }

  ghost predicate CallOk(s: State, c: nat)
    requires c < |s.calls|
  {
    var call := s.calls[c];
    var g := call.stage;
    && !g.Skipped?
    && (g.Rejected? <==> IsBlank(call.key))
    && (HasInserted(g) ==> 1 <= g.at <= |s.inserts| && s.inserts[g.at - 1] == (call.key, call.value))
    && (HasSnap(g) ==> g.at <= g.snap <= |s.inserts|)
    && (g.Serialised? ==> g.content == Earlier(s, g.snap))
    && (g.Written? ==> c in s.temps && s.temps[c] == Full(Earlier(s, g.snap)))
    && (forall n :: (c, n) in s.renames <==> g.Renamed? && n == g.snap)
  }

  ghost predicate Inv(s: State) {
    && s.store == StoreAfter(Load(s.initial), s.inserts)
    && (forall c | 0 <= c < |s.calls| :: CallOk(s, c))
    && (forall r | r in s.renames :: r.0 < |s.calls| && r.1 <= |s.inserts|)
    && s.file == LastRenamed(s)
  }

  /** The file is the snapshot renamed last, whole; before any rename it is what it was at the start. */
  function LastRenamed(s: State): File
    requires forall r | r in s.renames :: r.1 <= |s.inserts|
  {
    if s.renames == [] then s.initial else Contents(Earlier(s, s.renames[|s.renames| - 1].1))
  }

  lemma StartIsInv(file: File)
    ensures Inv(Start(file))
  {}

  lemma EarlierStays(s: State, t: State, n: nat)
    requires n <= |s.inserts| && s.initial == t.initial && s.inserts <= t.inserts
    ensures Earlier(t, n) == Earlier(s, n)
  {
    assert t.inserts[..n] == s.inserts[..n];
  }

  lemma EarlierIsStore(s: State)
    requires s.store == StoreAfter(Load(s.initial), s.inserts)
    ensures Earlier(s, |s.inserts|) == s.store
  {
    assert s.inserts[..|s.inserts|] == s.inserts;
  }

  lemma CallStays(s: State, t: State, c: nat)
    requires c < |s.calls| && c < |t.calls| && CallOk(s, c) && t.calls[c] == s.calls[c]
    requires s.initial == t.initial && s.inserts <= t.inserts
    requires c in s.temps ==> c in t.temps && t.temps[c] == s.temps[c]
    requires forall n :: (c, n) in s.renames <==> (c, n) in t.renames
    ensures CallOk(t, c)
  {
    hide Earlier;
    if HasSnap(s.calls[c].stage) { EarlierStays(s, t, s.calls[c].stage.snap); }
  }

  predicate Owner(e: Event, c: nat) {
    !e.Arrive? && e.call == c
  }

  lemma StepFrame(s: State, e: Event)
    requires Enabled(s, e)
    ensures var t := Step(s, e);
      && t.initial == s.initial && s.inserts <= t.inserts && |s.calls| <= |t.calls|
      && forall c | 0 <= c < |s.calls| && !Owner(e, c) ::
           && t.calls[c] == s.calls[c]
           && (c in s.temps ==> c in t.temps && t.temps[c] == s.temps[c])
           && forall n :: (c, n) in s.renames <==> (c, n) in t.renames
  {}

  /** An insertion leaves a key behind, so no request finds the store empty when it persists it. */
  lemma NeverEmptied(s: State)
    requires s.store == StoreAfter(Load(s.initial), s.inserts) && s.inserts != []
    ensures s.store != map[]
  {
    assert s.inserts[|s.inserts| - 1].0 in s.store;
  }

  /** The call that steps. */
  lemma OwnerStays(s: State, e: Event)
    requires Inv(s) && Enabled(s, e) && !e.Arrive?
    ensures CallOk(Step(s, e), e.call)
  {
    hide StoreAfter, IsBlank;
    var t := Step(s, e);
    var c := e.call;
    assert CallOk(s, c);
    EarlierIsStore(s);
    StepFrame(s, e);
    if s.inserts != [] { NeverEmptied(s); }
    if HasSnap(t.calls[c].stage) { EarlierStays(s, t, t.calls[c].stage.snap); }
    if e.Rename? && e.ok { assert (c, s.calls[c].stage.snap) in t.renames; }
  }

  lemma FileStays(s: State, e: Event)
    requires Inv(s) && Enabled(s, e)
    ensures var t := Step(s, e);
      && (forall r | r in t.renames :: r.0 < |t.calls| && r.1 <= |t.inserts|)
      && t.file == LastRenamed(t)
  {
    hide StoreAfter, IsBlank, Earlier;
    var t := Step(s, e);
    StepFrame(s, e);
    if !e.Arrive? { assert CallOk(s, e.call); }
    if t.renames != [] {
      EarlierStays(s, t, t.renames[|t.renames| - 1].1);
    }
  }

  lemma NewCallOk(s: State, e: Event)
    requires Inv(s) && e.Arrive?
    ensures CallOk(Step(s, e), |s.calls|)
  {
    hide StoreAfter, Earlier, CallOk;
    assert forall r | r in s.renames :: r.0 < |s.calls|;
    ArrivedIsOk(Step(s, e), |s.calls|);
  }

  lemma ArrivedIsOk(t: State, c: nat)
    requires c < |t.calls| && t.calls[c].stage == (if IsBlank(t.calls[c].key) then Rejected else Arrived)
    requires forall r | r in t.renames :: r.0 < c
    ensures CallOk(t, c)
  {}

  lemma StoreSteps(s: State, e: Event)
    requires Inv(s) && Enabled(s, e)
    ensures var t := Step(s, e); t.store == StoreAfter(Load(t.initial), t.inserts)
  {
    hide CallOk, Earlier, LastRenamed;
    var t := Step(s, e);
    if e.Insert? {
      assert t.inserts[..|t.inserts| - 1] == s.inserts;
    }
  }

  lemma StepKeepsInv(s: State, e: Event)
    requires Inv(s) && Enabled(s, e)
    ensures Inv(Step(s, e))
  {
    hide CallOk, Earlier, LastRenamed;
    var t := Step(s, e);
    StepFrame(s, e);
    FileStays(s, e);
    forall c | 0 <= c < |t.calls| ensures CallOk(t, c) {
      if c == |s.calls| {
        NewCallOk(s, e);
      } else if Owner(e, c) {
        OwnerStays(s, e);
      } else {
        CallStays(s, t, c);
      }
    }
    StoreSteps(s, e);
  }

  lemma {:induction false} RunKeepsInv(s: State, events: seq<Event>, t: State)
    requires Inv(s) && Reaches(s, events, t)
    ensures Inv(t) && t.initial == s.initial
    decreases |events|
  {
    hide Inv;
    if events != [] {
      StepKeepsInv(s, events[0]);
      StepFrame(s, events[0]);
      RunKeepsInv(Step(s, events[0]), events[1..], t);
    }
  }

  /** Whatever the interleaving and the failures, the file is untouched or exactly some earlier store. */
  lemma FileIsAnEarlierStore(file: File, events: seq<Event>, t: State)
    requires Reaches(Start(file), events, t)
    ensures t.file == file || exists n | 1 <= n <= |t.inserts| :: t.file == Contents(Earlier(t, n))
  {
    StartIsInv(file);
    RunKeepsInv(Start(file), events, t);
    if t.renames != [] {
      var (c, n) := t.renames[|t.renames| - 1];
      assert (c, n) in t.renames && CallOk(t, c);
    }
  }

  /** A request is answered with success exactly when it renamed a snapshot with its own value or a later one. */
  lemma SuccessMeansRenamed(file: File, events: seq<Event>, t: State, c: nat)
    requires Reaches(Start(file), events, t) && c < |t.calls|
    ensures t.calls[c].stage.Renamed? || t.calls[c].stage.Skipped? <==> exists n :: (c, n) in t.renames
    ensures forall n | (c, n) in t.renames :: OwnOrLater(t, t.calls[c].stage.at, n, t.calls[c].key)
  {
    StartIsInv(file);
    RunKeepsInv(Start(file), events, t);
    var g := t.calls[c].stage;
    assert CallOk(t, c);
    if g.Renamed? {
      assert (c, g.snap) in t.renames;
      OwnValueOrLater(t, g.at, g.snap);
    }
  }

  /** The rename itself puts that snapshot into place, all at once. */
  lemma RenameInstallsSnapshot(s: State, c: nat)
    requires Inv(s) && Enabled(s, Rename(c, true))
    ensures var t := Step(s, Rename(c, true)); var g := s.calls[c].stage;
      && g.snap <= |t.inserts| && t.file == Contents(Earlier(t, g.snap))
      && OwnOrLater(t, g.at, g.snap, s.calls[c].key)
  {
    var t := Step(s, Rename(c, true));
    var g := s.calls[c].stage;
    StepKeepsInv(s, Rename(c, true));
    assert CallOk(s, c);
    OwnValueOrLater(t, g.at, g.snap);
  }

  // ---- Requests that do not overlap

  predicate Active(g: Stage) {
    g.Arrived? || g.Inserted? || g.Serialised? || g.Written?
  }

  predicate Quiet(s: State) {
    forall c | 0 <= c < |s.calls| :: !Active(s.calls[c].stage)
  }

  /** Every request arrives after the answers to all earlier ones. */
  ghost predicate ReachesSerially(s: State, events: seq<Event>, t: State)
    decreases |events|
  {
    if events == [] then t == s
    else
      && Enabled(s, events[0]) && (events[0].Arrive? ==> Quiet(s))
      && ReachesSerially(Step(s, events[0]), events[1..], t)
  }

  ghost predicate SerialCall(s: State, c: nat)
    requires c < |s.calls|
  {
    var g := s.calls[c].stage;
    && (Active(g) ==> forall d | 0 <= d < |s.calls| :: Active(s.calls[d].stage) ==> d == c)
    && (Active(g) && HasInserted(g) ==> g.at == |s.inserts|)
    && (Active(g) && HasSnap(g) ==> g.snap == |s.inserts|)
    && (HasInserted(g) ==> g.at <= |s.inserts|)
    && (g.Renamed? && g.at == |s.inserts| ==> s.renames != [] && s.renames[|s.renames| - 1].1 == |s.inserts|)
  }

  ghost predicate Serial(s: State) {
    forall c | 0 <= c < |s.calls| :: SerialCall(s, c)
  }

  lemma StepKeepsSerial(s: State, e: Event)
    requires Serial(s) && Enabled(s, e) && (e.Arrive? ==> Quiet(s))
    ensures Serial(Step(s, e))
  {
    var t := Step(s, e);
    StepFrame(s, e);
    forall c | 0 <= c < |t.calls| ensures SerialCall(t, c) {
      if c < |s.calls| { assert SerialCall(s, c); }
      if !e.Arrive? { assert SerialCall(s, e.call); }
    }
  }

  lemma {:induction false} RunKeepsSerial(s: State, events: seq<Event>, t: State)
    requires Serial(s) && ReachesSerially(s, events, t)
    ensures Serial(t) && Reaches(s, events, t)
    decreases |events|
  {
    hide Serial;
    if events != [] {
      StepKeepsSerial(s, events[0]);
      RunKeepsSerial(Step(s, events[0]), events[1..], t);
    }
  }

  /**
   * Without overlap: once the request that changed the store last has been answered with success, the file
   * is the store, and a restart loads it back.
   */
  lemma SerialRequestsPersist(file: File, events: seq<Event>, t: State, c: nat)
    requires ReachesSerially(Start(file), events, t)
    requires c < |t.calls| && t.calls[c].stage.Renamed? && t.calls[c].stage.at == |t.inserts|
    ensures t.file == Contents(t.store) && Load(t.file) == t.store
  {
    RunKeepsSerial(Start(file), events, t);
    StartIsInv(file);
    RunKeepsInv(Start(file), events, t);
    assert SerialCall(t, c);
    EarlierIsStore(t);
  }

  /** Snapshots are renamed in the order in which they were taken. */
  ghost predicate RenamedInOrder(s: State) {
    forall i, j | 0 <= i < j < |s.renames| :: s.renames[i].1 <= s.renames[j].1
  }

  /** Requests may overlap as long as their renames keep the order of their snapshots. */
  lemma OrderedRenamesPersist(file: File, events: seq<Event>, t: State, c: nat)
    requires Reaches(Start(file), events, t) && RenamedInOrder(t)
    requires c < |t.calls| && t.calls[c].stage.Renamed? && t.calls[c].stage.at == |t.inserts|
    ensures t.file == Contents(t.store) && Load(t.file) == t.store
  {
    StartIsInv(file);
    RunKeepsInv(Start(file), events, t);
    assert CallOk(t, c);
    var last := |t.renames| - 1;
    var i :| 0 <= i <= last && t.renames[i] == (c, t.calls[c].stage.snap);
    assert t.renames[last] in t.renames && t.renames[last].1 == |t.inserts|;
    EarlierIsStore(t);
  }

  // ---- Requests that overlap

  /** The key was not inserted after the first `n` insertions. */
  lemma {:induction false} UntouchedKey(s: State, n: nat, m: nat, key: string)
    requires n <= m <= |s.inserts| && forall j | n <= j < m :: s.inserts[j].0 != key
    ensures key in Earlier(s, m) <==> key in Earlier(s, n)
    ensures key in Earlier(s, m) ==> Earlier(s, m)[key] == Earlier(s, n)[key]
    decreases m
  {
    if n < m {
      assert s.inserts[..m][..m - 1] == s.inserts[..m - 1];
      UntouchedKey(s, n, m - 1, key);
    }
  }

  /** A key that was ever inserted stays. */
  lemma {:induction false} InsertedKeyStays(s: State, j: nat, m: nat)
    requires j < m <= |s.inserts|
    ensures s.inserts[j].0 in Earlier(s, m)
    decreases m
  {
    assert s.inserts[..m][..m - 1] == s.inserts[..m - 1];
    if j < m - 1 { InsertedKeyStays(s, j, m - 1); }
  }

  /**
   * Exactly when the file is the store, for any interleaving: what was inserted after the snapshot renamed
   * last must already have been in that snapshot, with the value it has now.
   */
  lemma FileIsCurrentExactly(file: File, events: seq<Event>, t: State)
    requires Reaches(Start(file), events, t) && t.renames != []
    ensures var n := t.renames[|t.renames| - 1].1;
      && n <= |t.inserts|
      && (t.file == Contents(t.store) <==>
            forall j | n <= j < |t.inserts| ::
              && t.inserts[j].0 in t.store && t.inserts[j].0 in Earlier(t, n)
              && Earlier(t, n)[t.inserts[j].0] == t.store[t.inserts[j].0])
  {
    StartIsInv(file);
    RunKeepsInv(Start(file), events, t);
    var (n, m) := (t.renames[|t.renames| - 1].1, |t.inserts|);
    assert t.renames[|t.renames| - 1] in t.renames;
    EarlierIsStore(t);
    forall j | n <= j < m ensures t.inserts[j].0 in t.store {
      InsertedKeyStays(t, j, m);
    }
    if forall j | n <= j < m ::
         t.inserts[j].0 in Earlier(t, n) && Earlier(t, n)[t.inserts[j].0] == t.store[t.inserts[j].0] {
      forall key
        ensures key in t.store <==> key in Earlier(t, n)
        ensures key in t.store ==> t.store[key] == Earlier(t, n)[key]
      {
        if forall j | n <= j < m :: t.inserts[j].0 != key { UntouchedKey(t, n, m, key); }
      }
      assert t.store == Earlier(t, n);
    }
  }

  lemma Then(s: State, e: Event, rest: seq<Event>, t: State)
    requires Enabled(s, e) && Reaches(Step(s, e), rest, t)
    ensures Reaches(s, [e] + rest, t)
  {
    assert ([e] + rest)[1..] == rest;
  }

  lemma {:induction false} ThenRun(s: State, first: seq<Event>, m: State, rest: seq<Event>, t: State)
    requires Reaches(s, first, m) && Reaches(m, rest, t)
    ensures Reaches(s, first + rest, t)
    decreases |first|
  {
    if first == [] {
      assert first + rest == rest;
    } else {
      assert first == [first[0]] + first[1..];
      assert first + rest == [first[0]] + (first[1..] + rest);
      ThenRun(Step(s, first[0]), first[1..], m, rest, t);
      Then(s, first[0], first[1..] + rest, t);
    }
  }

  lemma OneStep(s: State, e: Event)
    requires Enabled(s, e)
    ensures Reaches(s, [e], Step(s, e))
  {
    Then(s, e, [], Step(s, e));
  }

  lemma TwoSteps(s: State, e: Event, f: Event, t: State)
    requires Enabled(s, e) && Enabled(Step(s, e), f) && Step(Step(s, e), f) == t
    ensures Reaches(s, [e, f], t)
  {
    hide Step, Enabled;
    OneStep(s, e);
    OneStep(Step(s, e), f);
    ThenRun(s, [e], Step(s, e), [f], Step(Step(s, e), f));
    assert [e] + [f] == [e, f];
  }

  /**
   * A setting that is stored alone survives a restart, and what survives with it depends on the file found at the
   * start: all of it, the defaults if there was none, and nothing if it could not be read.
   */
  lemma SettingSurvivesRestart(file: File, key: string, value: string) returns (events: seq<Event>, t: State)
    requires !IsBlank(key)
    ensures Reaches(Start(file), events, t) && t.calls == [Call(key, value, Renamed(1, 1))]
    ensures t.file == Contents(t.store) && Start(t.file).store == t.store
    ensures file.Contents? ==> t.store == file.store[key := value]
    ensures file.Absent? ==> t.store == DEFAULTS[key := value]
    ensures file.Malformed? ==> t.store == map[key := value]
  {
    hide IsBlank, Reaches;
    var s := Start(file);
    var s1 := Step(s, Arrive(key, value));
    var s2 := Step(s1, Insert(0));
    assert key in s2.store;
    var s3 := Step(s2, Serialise(0, true));
    hide Load;
    t := SetStage(s3, 0, Renamed(1, 1))
           .(file := Contents(s3.store), temps := s3.temps - {0}, renames := s3.renames + [(0, 1)]);
    Persists(s3, 0);
    hide Step;
    TwoSteps(s, Arrive(key, value), Insert(0), s2);
    OneStep(s2, Serialise(0, true));
    ThenRun(s2, [Serialise(0, true)], s3, [Write(0, true), Rename(0, true)], t);
    events := [Serialise(0, true)] + [Write(0, true), Rename(0, true)];
    ThenRun(s, [Arrive(key, value), Insert(0)], s2, events, t);
    events := [Arrive(key, value), Insert(0)] + events;
  }

  /** Two requests on a fresh, empty configuration, and how far they are. */
  function Pair(a: Call, b: Call, store: Store, inserts: seq<(string, string)>): State {
    State(store, Contents(map[]), map[], [a, b], Contents(map[]), inserts, [])
  }

  lemma BothArrive(a: Call, b: Call)
    requires a.stage == b.stage == Arrived && !IsBlank(a.key) && !IsBlank(b.key)
    ensures Reaches(Start(Contents(map[])), [Arrive(a.key, a.value), Arrive(b.key, b.value)], Pair(a, b, map[], []))
  {
    hide IsBlank, Reaches;
    assert [] + [a] == [a] && [a] + [b] == [a, b];
    TwoSteps(Start(Contents(map[])), Arrive(a.key, a.value), Arrive(b.key, b.value), Pair(a, b, map[], []));
  }

  lemma FirstSerialises(a: Call, b: Call)
    requires a.stage == b.stage == Arrived
    ensures Reaches(Pair(a, b, map[], []), [Insert(0), Serialise(0, true)],
                    Pair(a.(stage := Serialised(1, 1, map[a.key := a.value])), b,
                         map[a.key := a.value], [(a.key, a.value)]))
  {
    hide Reaches;
    var store := map[a.key := a.value];
    var s := Pair(a, b, map[], []);
    var m := Pair(a.(stage := Inserted(1)), b, store, [(a.key, a.value)]);
    assert Step(s, Insert(0)) == m by {
      assert [a, b][0 := a.(stage := Inserted(1))] == m.calls;
      assert map[][a.key := a.value] == store && [] + [(a.key, a.value)] == m.inserts;
    }
    assert a.key in m.store;
    var t := Pair(a.(stage := Serialised(1, 1, store)), b, store, m.inserts);
    assert Step(m, Serialise(0, true)) == t by { assert m.calls[0 := t.calls[0]] == t.calls; }
    TwoSteps(s, Insert(0), Serialise(0, true), t);
  }

  lemma SecondSerialises(a: Call, b: Call, store: Store, inserts: seq<(string, string)>)
    requires b.stage == Arrived
    ensures Reaches(Pair(a, b, store, inserts), [Insert(1), Serialise(1, true)],
                    Pair(a, b.(stage := Serialised(|inserts| + 1, |inserts| + 1, store[b.key := b.value])),
                         store[b.key := b.value], inserts + [(b.key, b.value)]))
  {
    hide Reaches;
    var n := |inserts| + 1;
    var s := Pair(a, b, store, inserts);
    var m := Pair(a, b.(stage := Inserted(n)), store[b.key := b.value], inserts + [(b.key, b.value)]);
    assert Step(s, Insert(1)) == m by { assert [a, b][1 := m.calls[1]] == m.calls; }
    assert b.key in m.store;
    var t := Pair(a, b.(stage := Serialised(n, n, m.store)), m.store, m.inserts);
    assert Step(m, Serialise(1, true)) == t by { assert m.calls[1 := t.calls[1]] == t.calls; }
    TwoSteps(s, Insert(1), Serialise(1, true), t);
  }

  lemma Persists(s: State, c: nat)
    requires c < |s.calls| && s.calls[c].stage.Serialised?
    ensures var g := s.calls[c].stage;
      var t := SetStage(s, c, Renamed(g.at, g.snap))
                 .(file := Contents(g.content), temps := s.temps - {c}, renames := s.renames + [(c, g.snap)]);
      Reaches(s, [Write(c, true), Rename(c, true)], t)
  {
    hide Reaches;
    var g := s.calls[c].stage;
    var m := Step(s, Write(c, true));
    assert m.temps - {c} == s.temps - {c};
    assert m.calls[c := m.calls[c].(stage := Renamed(g.at, g.snap))]
        == s.calls[c := s.calls[c].(stage := Renamed(g.at, g.snap))];
    TwoSteps(s, Write(c, true), Rename(c, true), Step(m, Rename(c, true)));
  }

  /**
   * Two overlapping requests for different keys can both succeed and still leave a file without the second
   * one's setting: the first serialises before the second inserts and renames after it.
   */
  lemma OverlapCanLeaveStaleFile(a: Call, b: Call) returns (events: seq<Event>, t: State)
    requires a.stage == b.stage == Arrived && a.key != b.key && !IsBlank(a.key) && !IsBlank(b.key)
    ensures Reaches(Start(Contents(map[])), events, t) && Quiet(t)
    ensures t.calls == [a.(stage := Renamed(1, 1)), b.(stage := Renamed(2, 2))]
    ensures t.store == map[a.key := a.value, b.key := b.value] && t.file == Contents(map[a.key := a.value])
    ensures t.file != Contents(t.store)
  {
    hide IsBlank, Reaches, Step, Enabled;
    var s0 := Start(Contents(map[]));
    var s1 := Pair(a, b, map[], []);
    BothArrive(a, b);
    var a1 := a.(stage := Serialised(1, 1, map[a.key := a.value]));
    var s2 := Pair(a1, b, map[a.key := a.value], [(a.key, a.value)]);
    FirstSerialises(a, b);
    var both := map[a.key := a.value][b.key := b.value];
    var b1 := b.(stage := Serialised(2, 2, both));
    var s3 := Pair(a1, b1, both, [(a.key, a.value), (b.key, b.value)]);
    SecondSerialises(a1, b, map[a.key := a.value], [(a.key, a.value)]);
    assert [(a.key, a.value)] + [(b.key, b.value)] == s3.inserts;
    Persists(s3, 1);
    assert [] + [(1, 2)] == [(1, 2)];
    var s4 := SetStage(s3, 1, Renamed(2, 2)).(file := Contents(both), temps := s3.temps - {1}, renames := [(1, 2)]);
    Persists(s4, 0);
    assert [(1, 2)] + [(0, 1)] == [(1, 2), (0, 1)];
    t := SetStage(s4, 0, Renamed(1, 1))
           .(file := Contents(map[a.key := a.value]), temps := s4.temps - {0}, renames := [(1, 2), (0, 1)]);
    events := [Insert(0), Serialise(0, true)];
    ThenRun(s3, [Write(1, true), Rename(1, true)], s4, [Write(0, true), Rename(0, true)], t);
    var tail := [Write(1, true), Rename(1, true)] + [Write(0, true), Rename(0, true)];
    ThenRun(s2, [Insert(1), Serialise(1, true)], s3, tail, t);
    ThenRun(s1, events, s2, [Insert(1), Serialise(1, true)] + tail, t);
    events := events + ([Insert(1), Serialise(1, true)] + tail);
    ThenRun(s0, [Arrive(a.key, a.value), Arrive(b.key, b.value)], s1, events, t);
    events := [Arrive(a.key, a.value), Arrive(b.key, b.value)] + events;
    assert b.key in t.store && b.key !in map[a.key := a.value];
  }
}
