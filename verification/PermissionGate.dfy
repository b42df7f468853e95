/** Actions behind the permission gate: any number of requests, interleaved, while grants change and time passes. */
module PermissionGate {
  import opened Blank
  import opened Permissions
  import opened Wrappers

  const MOVE := "filesystem.move"
  const WALLPAPER := "desktop.wallpaper.change"

  type Parameters = map<string, string>

  datatype Body = MoveFile(source: string, destination: string) | ChangeWallpaper(path: string)

  datatype Stage =
    | Received
    | Asking
    | Decided(decision: string)
    | Running            // its body has been started
    | Refused            // answered without starting anything

  datatype Call = Call(action: string, parameters: Parameters, stage: Stage)

  /** History: an evaluation that reached a decision, and what its lookup had found. */
  datatype Decision = Decision(call: nat, action: string, resource: string, found: Option<Grant>, result: string)

  /** History: a body that was started. */
  datatype Start = Start(call: nat, body: Body)

  datatype State = State(
    grants: Grants,
    now: int,
    audit: seq<Row>,
    calls: seq<Call>,
    decisions: seq<Decision>,
    started: seq<Start>)

  datatype Event =
    | Arrive(action: string, parameters: Parameters)
    | Select(call: nat)
    | Evaluate(call: nat, outage: Outage, replyLost: bool)
    | Act(call: nat)
    | Regrant(grants: Grants)
    | Tick(now: int)

  /** The resource that the decision is bound to: the one the action will touch. */
  function Resource(action: string, parameters: Parameters): Option<string> {
    if action == MOVE then
      if "source" in parameters then Some(parameters["source"]) else None
    else if action == WALLPAPER then
      if "path" in parameters then Some(parameters["path"]) else None
    else None
  }

  /** What an allowed request starts; a move without a destination starts nothing. */
  function BodyOf(action: string, parameters: Parameters, resource: string): Option<Body> {
    if action == MOVE then
      if "destination" in parameters then Some(MoveFile(resource, parameters["destination"])) else None
    else Some(ChangeWallpaper(resource))
  }

  function SetStage(s: State, c: nat, g: Stage): State
    requires c < |s.calls|
  {
    s.(calls := s.calls[c := s.calls[c].(stage := g)])
  }

  predicate Enabled(s: State, e: Event) {
    match e
    case Arrive(_, _) => true
    case Regrant(_) => true
    case Tick(_) => true
    case Select(c) => c < |s.calls| && s.calls[c].stage == Received
    case Evaluate(c, _, _) =>
      c < |s.calls| && s.calls[c].stage == Asking && Resource(s.calls[c].action, s.calls[c].parameters).Some?
    case Act(c) =>
      c < |s.calls| && s.calls[c].stage.Decided? && Resource(s.calls[c].action, s.calls[c].parameters).Some?
  }

  function ResourceOf(call: Call): string
    requires Resource(call.action, call.parameters).Some?
  {
    Resource(call.action, call.parameters).value
  }

  /** What the evaluation of a call's request finds now. */
  function FoundBy(s: State, c: nat): Option<Grant>
    requires c < |s.calls| && Resource(s.calls[c].action, s.calls[c].parameters).Some?
  {
    Find(s.grants, s.now, s.calls[c].action, ResourceOf(s.calls[c]))
  }

  function Step(s: State, e: Event): State
    requires Enabled(s, e)
  {
    match e
    case Arrive(action, parameters) => s.(calls := s.calls + [Call(action, parameters, Received)])
    case Regrant(grants) => s.(grants := grants)
    case Tick(now) => s.(now := now)
    case Select(c) =>
      SetStage(s, c, if Resource(s.calls[c].action, s.calls[c].parameters).Some? then Asking else Refused)
    case Evaluate(c, outage, replyLost) =>
      var (action, resource, found) := (s.calls[c].action, ResourceOf(s.calls[c]), FoundBy(s, c));
      if !Decides(found, action, resource, outage) then SetStage(s, c, Refused)
      else
        var result := if Allows(found) then ALLOWED else DENIED;
        SetStage(s, c, if replyLost then Refused else Decided(result))
          .(audit := s.audit + [Row(action, resource, result)],
            decisions := s.decisions + [Decision(c, action, resource, found, result)])
    case Act(c) =>
      var (action, parameters) := (s.calls[c].action, s.calls[c].parameters);
      if s.calls[c].stage.decision != ALLOWED then SetStage(s, c, Refused)
      else
        var body := BodyOf(action, parameters, ResourceOf(s.calls[c]));
        if body.None? then SetStage(s, c, Refused)
        else SetStage(s, c, Running).(started := s.started + [Start(c, body.value)])
  }

  ghost predicate Reaches(s: State, events: seq<Event>, t: State)
    decreases |events|
  {
    if events == [] then t == s
    else Enabled(s, events[0]) && Reaches(Step(s, events[0]), events[1..], t)
  }

  function Empty(grants: Grants, now: int): State {
    State(grants, now, [], [], [], [])
  }

  // ---- Over whole runs

  /** Row `i` is that of decision `i`, which was made for its call's own action and resource. */
  ghost predicate DecisionOk(s: State, i: nat)
    requires i < |s.decisions|
  {
    var d := s.decisions[i];
    && i < |s.audit| && s.audit[i] == Row(d.action, d.resource, d.result)
    && d.call < |s.calls| && s.calls[d.call].action == d.action
    && Resource(d.action, s.calls[d.call].parameters) == Some(d.resource)
    && !IsBlank(d.action) && !IsBlank(d.resource) && Intelligible(d.found)
    && d.result == (if Allows(d.found) then ALLOWED else DENIED)
  }

  ghost predicate DecidedAs(s: State, i: nat, c: nat, result: string) {
    i < |s.decisions| && s.decisions[i].call == c && s.decisions[i].result == result
  }

  ghost predicate CallOk(s: State, c: nat)
    requires c < |s.calls|
  {
    match s.calls[c].stage
    case Received => Fresh(s, c)
    case Asking => Fresh(s, c)
    case Decided(result) => (exists i :: DecidedAs(s, i, c, result)) && Unstarted(s, c)
    case Running => exists i :: DecidedAs(s, i, c, ALLOWED)
    case Refused => Unstarted(s, c)
  }

  ghost predicate Unstarted(s: State, c: nat) {
    forall k | 0 <= k < |s.started| :: s.started[k].call != c
  }

  ghost predicate Fresh(s: State, c: nat) {
    Unstarted(s, c) && forall i | 0 <= i < |s.decisions| :: s.decisions[i].call != c
  }

  /** A body stands for its call, and the call has an "allowed" in the history. */
  ghost predicate StartOk(s: State, k: nat)
    requires k < |s.started|
  {
    var st := s.started[k];
    && st.call < |s.calls| && s.calls[st.call].stage == Running
    && var call := s.calls[st.call];
       && Resource(call.action, call.parameters).Some?
       && Some(st.body) == BodyOf(call.action, call.parameters, ResourceOf(call))
  }

  ghost predicate Inv(s: State) {
    && |s.audit| == |s.decisions|
    && (forall i | 0 <= i < |s.decisions| :: DecisionOk(s, i))
    && (forall c | 0 <= c < |s.calls| :: CallOk(s, c))
    && (forall k | 0 <= k < |s.started| :: StartOk(s, k))
    && (forall i, j | 0 <= i < j < |s.decisions| :: s.decisions[i].call != s.decisions[j].call)
    && (forall i, j | 0 <= i < j < |s.started| :: s.started[i].call != s.started[j].call)
  }

  /** `t` comes after `s`: calls keep their requests and histories only grow. */
  ghost predicate Later(s: State, t: State) {
    && |s.calls| <= |t.calls| && s.decisions <= t.decisions && s.audit <= t.audit && s.started <= t.started
    && forall c | 0 <= c < |s.calls| ::
         t.calls[c].action == s.calls[c].action && t.calls[c].parameters == s.calls[c].parameters
  }

  predicate Owner(e: Event, c: nat) {
    (e.Select? || e.Evaluate? || e.Act?) && e.call == c
  }

  lemma StepIsLater(s: State, e: Event)
    requires Enabled(s, e)
    ensures Later(s, Step(s, e))
    ensures forall c | 0 <= c < |s.calls| && !Owner(e, c) :: Step(s, e).calls[c] == s.calls[c]
    ensures forall i | |s.decisions| <= i < |Step(s, e).decisions| :: Owner(e, Step(s, e).decisions[i].call)
    ensures forall i | |s.started| <= i < |Step(s, e).started| :: Owner(e, Step(s, e).started[i].call)
  {
    hide Decides, Allows, Resource, BodyOf, Find;
  }

  lemma DecisionStays(s: State, t: State, i: nat)
    requires Later(s, t) && i < |s.decisions| && DecisionOk(s, i)
    ensures DecisionOk(t, i)
  {
    hide IsBlank, Resource, Intelligible, Allows;
  }

  lemma CallStays(s: State, e: Event, c: nat)
    requires Enabled(s, e) && c < |s.calls| && !Owner(e, c) && CallOk(s, c)
    ensures c < |Step(s, e).calls| && CallOk(Step(s, e), c)
  {
    hide Step, Enabled;
    var t := Step(s, e);
    StepIsLater(s, e);
    assert Unstarted(s, c) ==> Unstarted(t, c);
    assert Fresh(s, c) ==> Fresh(t, c);
    forall i, result | DecidedAs(s, i, c, result) ensures DecidedAs(t, i, c, result) {}
  }

  lemma NewCall(s: State, e: Event)
    requires Inv(s) && e.Arrive?
    ensures CallOk(Step(s, e), |s.calls|)
  {
    forall i | 0 <= i < |s.decisions| ensures s.decisions[i].call != |s.calls| { assert DecisionOk(s, i); }
    forall k | 0 <= k < |s.started| ensures s.started[k].call != |s.calls| { assert StartOk(s, k); }
  }

  lemma OwnerStays(s: State, e: Event)
    requires Inv(s) && Enabled(s, e) && (e.Select? || e.Evaluate? || e.Act?)
    ensures CallOk(Step(s, e), e.call)
  {
    hide IsBlank, Resource, BodyOf, Find, Allows, Decides, DecisionOk, StartOk;
    var t := Step(s, e);
    var c := e.call;
    assert CallOk(s, c);
    if e.Evaluate? && t.calls[c].stage.Decided? {
      assert DecidedAs(t, |s.decisions|, c, t.calls[c].stage.decision);
    }
    if e.Act? {
      var i :| DecidedAs(s, i, c, s.calls[c].stage.decision);
      assert DecidedAs(t, i, c, s.calls[c].stage.decision);
    }
  }

  lemma NewDecision(s: State, e: Event)
    requires Inv(s) && Enabled(s, e)
    ensures var t := Step(s, e);
      && |t.audit| == |t.decisions| <= |s.decisions| + 1
      && (|t.decisions| > |s.decisions| ==>
            && DecisionOk(t, |s.decisions|)
            && forall i | 0 <= i < |s.decisions| :: s.decisions[i].call != t.decisions[|s.decisions|].call)
  {
    hide IsBlank, Resource, BodyOf, Find, StartOk;
    if e.Evaluate? { assert CallOk(s, e.call); }
  }

  lemma NewStart(s: State, e: Event)
    requires Inv(s) && Enabled(s, e)
    ensures var t := Step(s, e);
      && |t.started| <= |s.started| + 1
      && (|t.started| > |s.started| ==>
            && StartOk(t, |s.started|)
            && forall k | 0 <= k < |s.started| :: s.started[k].call != t.started[|s.started|].call)
  {
    hide IsBlank, Resource, BodyOf, Find, Allows, Decides, DecisionOk;
    if e.Act? { assert CallOk(s, e.call); }
  }

  lemma StartStays(s: State, e: Event, k: nat)
    requires Inv(s) && Enabled(s, e) && k < |s.started|
    ensures k < |Step(s, e).started| && StartOk(Step(s, e), k)
  {
    hide Step, Resource, BodyOf, CallOk, DecisionOk;
    StepIsLater(s, e);
    assert StartOk(s, k);
    assert !Owner(e, s.started[k].call);
  }

  lemma StepKeepsInv(s: State, e: Event)
    requires Inv(s) && Enabled(s, e)
    ensures Inv(Step(s, e))
  {
    hide Step, Enabled, DecisionOk, CallOk, StartOk, Owner;
    var t := Step(s, e);
    StepIsLater(s, e);
    NewDecision(s, e);
    NewStart(s, e);
    forall i | 0 <= i < |t.decisions| ensures DecisionOk(t, i) {
      if i < |s.decisions| { DecisionStays(s, t, i); }
    }
    forall k | 0 <= k < |t.started| ensures StartOk(t, k) {
      if k < |s.started| { StartStays(s, e, k); }
    }
    forall c | 0 <= c < |t.calls| ensures CallOk(t, c) { EveryCall(s, e, c); }
  }

  lemma EveryCall(s: State, e: Event, c: nat)
    requires Inv(s) && Enabled(s, e) && c < |Step(s, e).calls|
    ensures CallOk(Step(s, e), c)
  {
    hide CallOk, DecisionOk, StartOk, Decides, Resource, BodyOf, Find, Allows;
    if c == |s.calls| {
      NewCall(s, e);
    } else if Owner(e, c) {
      OwnerStays(s, e);
    } else {
      CallStays(s, e, c);
    }
  }

  lemma {:induction false} RunKeepsInv(s: State, events: seq<Event>, t: State)
    requires Inv(s) && Reaches(s, events, t)
    ensures Inv(t)
    decreases |events|
  {
    hide Inv, Step, Enabled;
    if events != [] {
      StepKeepsInv(s, events[0]);
      RunKeepsInv(Step(s, events[0]), events[1..], t);
    }
  }

  /** The moment a decision was made: the state before it, and the event that made it. */
  lemma {:induction false} DecisionHappened(s: State, events: seq<Event>, t: State, i: nat) returns (n: nat, mid: State)
    requires Reaches(s, events, t) && |s.decisions| <= i < |t.decisions|
    ensures n < |events| && Reaches(s, events[..n], mid) && Enabled(mid, events[n]) && events[n].Evaluate?
    ensures var d := t.decisions[i]; var c := events[n].call;
      && d.call == c && d.action == mid.calls[c].action && d.resource == ResourceOf(mid.calls[c])
      && d.found == FoundBy(mid, c)
    decreases |events|
  {
    hide Decides, Allows, Resource, BodyOf, Find;
    var next := Step(s, events[0]);
    if |next.decisions| > i {
      n, mid := 0, s;
      DecisionsStay(next, events[1..], t);
    } else {
      n, mid := DecisionHappened(next, events[1..], t, i);
      n := n + 1;
      assert events[..n] == [events[0]] + events[1..][..n - 1];
      assert events[..n][1..] == events[1..][..n - 1];
    }
  }

  lemma {:induction false} DecisionsStay(s: State, events: seq<Event>, t: State)
    requires Reaches(s, events, t)
    ensures s.decisions <= t.decisions
    decreases |events|
  {
    hide Step, Enabled;
    if events != [] {
      StepIsLater(s, events[0]);
      DecisionsStay(Step(s, events[0]), events[1..], t);
    }
  }

  /** What a body touches: the capability and the resource its decision must be about. */
  function Touches(body: Body): (string, string) {
    match body
    case MoveFile(source, _) => (MOVE, source)
    case ChangeWallpaper(path) => (WALLPAPER, path)
  }

  /**
   * Every body started in a run follows an evaluation of the same request, action and resource which found an
   * unexpired "allowed" in the database as it was at that moment, and whose audit row says so.
   */
  lemma EveryStartWasAllowed(grants: Grants, now: int, events: seq<Event>, t: State, k: nat)
    returns (n: nat, mid: State, row: nat)
    requires Reaches(Empty(grants, now), events, t) && k < |t.started|
    ensures n < |events| && Reaches(Empty(grants, now), events[..n], mid)
    ensures events[n].Evaluate? && events[n].call == t.started[k].call
    ensures var key := Touches(t.started[k].body);
      && key in mid.grants && mid.grants[key].decision == "allowed"
      && (forall end | mid.grants[key].expires == Some(end) :: mid.now < end)
      && row < |t.audit| && t.audit[row] == Row(key.0, key.1, "allowed")
      && row < |t.decisions| && t.decisions[row].call == t.started[k].call
  {
    RunKeepsInv(Empty(grants, now), events, t);
    assert StartOk(t, k);
    assert CallOk(t, t.started[k].call);
    row :| DecidedAs(t, row, t.started[k].call, ALLOWED);
    assert DecisionOk(t, row);
    n, mid := DecisionHappened(Empty(grants, now), events, t, row);
  }

  /** What was started is what was asked for: the body's paths are the parameters of its own request. */
  lemma StartedAsRequested(grants: Grants, now: int, events: seq<Event>, t: State, k: nat)
    requires Reaches(Empty(grants, now), events, t) && k < |t.started|
    ensures t.started[k].call < |t.calls|
    ensures var (call, body) := (t.calls[t.started[k].call], t.started[k].body);
      if body.MoveFile? then
        && call.action == "filesystem.move" && "source" in call.parameters && "destination" in call.parameters
        && body == MoveFile(call.parameters["source"], call.parameters["destination"])
      else
        && call.action == "desktop.wallpaper.change" && "path" in call.parameters
        && body == ChangeWallpaper(call.parameters["path"])
  {
    RunKeepsInv(Empty(grants, now), events, t);
    assert StartOk(t, k);
  }

  /** The whole way of a request that nothing interrupts. */
  function Undisturbed(s: State, action: string, parameters: Parameters): seq<Event> {
    var c := |s.calls|;
    [Arrive(action, parameters), Select(c), Evaluate(c, NoOutage, false), Act(c)]
  }

  /** A request that names all it needs is carried out exactly on a live "allowed" for what it touches. */
  lemma GrantedRequestRuns(s: State, action: string, parameters: Parameters, body: Body) returns (t: State)
    requires if action == "filesystem.move" then
               && "source" in parameters && "destination" in parameters
               && body == MoveFile(parameters["source"], parameters["destination"])
             else
               && action == "desktop.wallpaper.change" && "path" in parameters
               && body == ChangeWallpaper(parameters["path"])
    requires !IsBlank(Touches(body).1)
    requires Touches(body) in s.grants ==> s.grants[Touches(body)].decision in {"allowed", "denied"}
    ensures Reaches(s, Undisturbed(s, action, parameters), t)
    ensures var key := Touches(body);
      var live := key in s.grants && s.grants[key].decision == "allowed"
                  && forall end | s.grants[key].expires == Some(end) :: s.now < end;
      && key.0 == action
      && t.audit == s.audit + [Row(action, key.1, if live then "allowed" else "denied")]
      && t.started == s.started + if live then [Start(|s.calls|, body)] else []
  {
    hide IsBlank;
    ActionsAreNotBlank(action);
    var c := |s.calls|;
    var asked := Step(s, Arrive(action, parameters));
    var selected := Step(asked, Select(c));
    var decided := Step(selected, Evaluate(c, NoOutage, false));
    t := Step(decided, Act(c));
    FourSteps(s, Arrive(action, parameters), Select(c), Evaluate(c, NoOutage, false), Act(c));
  }

  /** A request is refused at once exactly if its action is unknown or the path it would touch is not named. */
  lemma RefusedAtOnce(s: State, c: nat)
    requires Enabled(s, Select(c))
    ensures var call := s.calls[c];
      Step(s, Select(c)).calls[c].stage == Refused <==>
        && (call.action == "filesystem.move" ==> "source" !in call.parameters)
        && (call.action == "desktop.wallpaper.change" ==> "path" !in call.parameters)
  {}

  /** Grants and time may change at any moment, and an evaluation goes by those of its own. */
  lemma LatestGrantsCount(s: State, c: nat, grants: Grants, now: int)
    requires Enabled(s, Evaluate(c, NoOutage, false)) && !IsBlank(s.calls[c].action) && !IsBlank(ResourceOf(s.calls[c]))
    ensures Enabled(s, Regrant(grants)) && Enabled(Step(s, Regrant(grants)), Tick(now))
    ensures var later := Step(Step(s, Regrant(grants)), Tick(now));
      var key := (s.calls[c].action, ResourceOf(s.calls[c]));
      && Enabled(later, Evaluate(c, NoOutage, false))
      && (Step(later, Evaluate(c, NoOutage, false)).calls[c].stage == Decided("allowed") <==>
            && key in grants && grants[key].decision == "allowed"
            && forall end | grants[key].expires == Some(end) :: now < end)
  {
    hide IsBlank, Resource;
  }

  lemma ActionsAreNotBlank(action: string)
    requires action == "filesystem.move" || action == "desktop.wallpaper.change"
    ensures !IsBlank(action)
  {
    assert !IsWhiteSpace(action[0]);
  }

  lemma FourSteps(s: State, a: Event, b: Event, c: Event, d: Event)
    requires Enabled(s, a) && Enabled(Step(s, a), b) && Enabled(Step(Step(s, a), b), c)
    requires Enabled(Step(Step(Step(s, a), b), c), d)
    ensures Reaches(s, [a, b, c, d], Step(Step(Step(Step(s, a), b), c), d))
  {
    hide Step, Enabled;
    var s1 := Step(s, a);
    var s2 := Step(s1, b);
    var s3 := Step(s2, c);
    var t := Step(s3, d);
    assert [d][1..] == [] && Reaches(s3, [d], t) by { assert Reaches(t, [], t); }
    assert [c, d][1..] == [d] && Reaches(s2, [c, d], t);
    assert [b, c, d][1..] == [c, d] && Reaches(s1, [b, c, d], t);
    assert [a, b, c, d][1..] == [b, c, d];
  }

  /** The audit log holds one row for each decision, in order; a request has at most one, and starts at most once. */
  lemma OneRowPerDecision(grants: Grants, now: int, events: seq<Event>, t: State)
    requires Reaches(Empty(grants, now), events, t)
    ensures |t.audit| == |t.decisions|
    ensures forall i | 0 <= i < |t.audit| ::
      t.audit[i] == Row(t.decisions[i].action, t.decisions[i].resource, t.decisions[i].result)
    ensures forall i, j | 0 <= i < j < |t.audit| :: t.decisions[i].call != t.decisions[j].call
    ensures forall i, j | 0 <= i < j < |t.started| :: t.started[i].call != t.started[j].call
  {
    RunKeepsInv(Empty(grants, now), events, t);
    forall i | 0 <= i < |t.audit|
      ensures t.audit[i] == Row(t.decisions[i].action, t.decisions[i].resource, t.decisions[i].result) {
      assert DecisionOk(t, i);
    }
  }

  /** An unsupported action, a missing parameter or a blank resource leaves no row and starts nothing, ever. */
  lemma InvalidRequestsLeaveNoTrace(grants: Grants, now: int, events: seq<Event>, t: State, c: nat)
    requires Reaches(Empty(grants, now), events, t) && c < |t.calls|
    requires var (action, parameters) := (t.calls[c].action, t.calls[c].parameters);
      && (action == "filesystem.move" ==> "source" !in parameters || IsBlank(parameters["source"]))
      && (action == "desktop.wallpaper.change" ==> "path" !in parameters || IsBlank(parameters["path"]))
    ensures Fresh(t, c)
  {
    hide IsBlank;
    RunKeepsInv(Empty(grants, now), events, t);
    forall i | 0 <= i < |t.decisions| ensures t.decisions[i].call != c { assert DecisionOk(t, i); }
    forall k | 0 <= k < |t.started| ensures t.started[k].call != c {
      assert StartOk(t, k);
      assert CallOk(t, t.started[k].call);
    }
  }

  /** One evaluation adds a row exactly when it reaches a decision; a stored decision of another kind adds none. */
  lemma EvaluationAddsRowExactly(s: State, c: nat, outage: Outage, replyLost: bool)
    requires Enabled(s, Evaluate(c, outage, replyLost))
    ensures var t := Step(s, Evaluate(c, outage, replyLost));
      var (action, resource) := (s.calls[c].action, ResourceOf(s.calls[c]));
      var live := (action, resource) in s.grants && Unexpired(s.grants[(action, resource)], s.now);
      && t.started == s.started
      && (t.audit == s.audit || |t.audit| == |s.audit| + 1)
      && (t.audit != s.audit <==>
            && outage == NoOutage && !IsBlank(action) && !IsBlank(resource)
            && (live ==> s.grants[(action, resource)].decision in {ALLOWED, DENIED}))
      && (t.calls[c].stage == Decided(ALLOWED) <==>
            && outage == NoOutage && !IsBlank(action) && !IsBlank(resource) && !replyLost
            && live && s.grants[(action, resource)].decision == ALLOWED)
  {
    hide IsBlank, Resource;
  }
}
