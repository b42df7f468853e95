/** What the greeter sends, told from what the user entered: for every order of events and all server bytes. */
module GreeterRequests {
  import opened Blank
  import opened Bytes
  import opened Greeter
  import opened GreeterFrames
  import opened GreeterRuns
  import opened Wrappers

  /** The name, without the white space around it, and the password of the attempt that was started last. */
  function Attempt(es: seq<Event>): Option<(string, string)> {
    if es == [] then None
    else
      var e := es[|es| - 1];
      if e.Start? && !IsBlank(e.username) then Some((Trimmed(e.username), e.password)) else Attempt(es[..|es| - 1])
  }

  /** What a request has to carry, given what was entered and the event that it answers. */
  predicate Carries(r: Request, attempt: Option<(string, string)>, e: Event) {
    match r
    case CreateSession(username) => e.Connect? && attempt.Some? && username == attempt.value.0
    case PostResponse(response, stored) =>
      if stored then e.Receive? && attempt.Some? && response == attempt.value.1 else e == Submit(response)
    case PostEmptyResponse => e.Receive?
    case StartSession => e.StartUserSession?
  }

  /** The log has grown, and each new request carries what it has to. */
  ghost predicate SendsRight(before: seq<Effect>, after: seq<Effect>, attempt: Option<(string, string)>, e: Event) {
    before <= after
    && forall i | |before| <= i < |after| && after[i].Wrote? :: Carries(after[i].request, attempt, e)
  }

  predicate Ends(e: Effect) {
    e.ErrorHandled? || e.FrameRejected? || e.SocketFailed?
  }

  /** An attempt under way is the one started last; once it has ended the greeter is idle. */
  ghost predicate Told(g: State, attempt: Option<(string, string)>) {
    && (g.phase == CreatingSession || g.phase == Authenticating ==>
          attempt.Some? && g.currentUser == attempt.value.0
          && (!g.credentialSubmitted ==> g.pendingPassword == attempt.value.1))
    && (g.phase == Authenticating ==> g.credentialSubmitted)
    && (g.log != [] && Ends(g.log[|g.log| - 1]) ==> g.phase == Idle && !g.awaitingResponse)
  }

  lemma AuthMessageTells(g: State, m: Json, a: Option<(string, string)>, e: Event)
    requires Told(g, a) && e.Receive? && m.kind == AuthMessage && g.log != [] && g.log[|g.log| - 1].Handled?
    ensures Told(AfterMessage(g, m), a) && SendsRight(g.log, AfterMessage(g, m).log, a, e)
  {
    hide RequestsCredential;
  }

  lemma MessageTells(g: State, m: Json, a: Option<(string, string)>, e: Event)
    requires Told(g, a) && e.Receive? && g.log != [] && g.log[|g.log| - 1].Handled?
    ensures Told(AfterMessage(g, m), a) && SendsRight(g.log, AfterMessage(g, m).log, a, e)
  {
    hide RequestsCredential, AfterSubmit;
    if m.kind == AuthMessage { AuthMessageTells(g, m, a, e); }
  }

  lemma PayloadTells(g: State, payload: seq<byte>, parse: seq<byte> -> Parsed, a: Option<(string, string)>, e: Event)
    requires Told(g, a) && e.Receive?
    ensures Told(AfterPayload(g, payload, parse), a) && SendsRight(g.log, AfterPayload(g, payload, parse).log, a, e)
  {
    hide AfterMessage;
    var h := Did(g, Handled(payload));
    if parse(payload).Object? { MessageTells(h, parse(payload).json, a, e); }
  }

  lemma {:induction false} HandleAllTells(g: State, payloads: seq<seq<byte>>, parse: seq<byte> -> Parsed,
                                          a: Option<(string, string)>, e: Event)
    requires Told(g, a) && e.Receive?
    ensures Told(HandleAll(g, payloads, parse), a)
    ensures SendsRight(g.log, HandleAll(g, payloads, parse).log, a, e)
    decreases |payloads|
  {
    hide AfterPayload, Told, Carries;
    if payloads != [] {
      PayloadTells(g, payloads[0], parse, a, e);
      HandleAllTells(AfterPayload(g, payloads[0], parse), payloads[1..], parse, a, e);
    }
  }

  lemma ReceiveTells(g: State, bytes: seq<byte>, parse: seq<byte> -> Parsed, a: Option<(string, string)>)
    requires Told(g, a)
    ensures Told(Step(g, Receive(bytes), parse), a)
    ensures SendsRight(g.log, Step(g, Receive(bytes), parse).log, a, Receive(bytes))
  {
    hide Drain, Decode, HandleAll;
    if g.socket == Connected {
      var h := g.(readBuffer := g.readBuffer + bytes);
      DrainFollowsDecoder(h, parse);
      HandleAllTells(h, Decode(h.readBuffer).payloads, parse, a, Receive(bytes));
    }
  }

  lemma UserTells(g: State, e: Event, parse: seq<byte> -> Parsed, a: Option<(string, string)>)
    requires Told(g, a) && !e.Receive?
    ensures var next := if e.Start? && Trimmed(e.username) != [] then Some((Trimmed(e.username), e.password)) else a;
            Told(Step(g, e, parse), next) && SendsRight(g.log, Step(g, e, parse).log, a, e)
  {
    hide Trimmed;
  }

  lemma StepTells(g: State, es: seq<Event>, e: Event, parse: seq<byte> -> Parsed)
    requires Told(g, Attempt(es))
    ensures Told(Step(g, e, parse), Attempt(es + [e])) && SendsRight(g.log, Step(g, e, parse).log, Attempt(es), e)
  {
    hide Step, Trimmed, IsBlank, Told, SendsRight;
    assert (es + [e])[..|es|] == es;
    if e.Start? { TrimmedEmptyExactly(e.username); }
    if e.Receive? { ReceiveTells(g, e.bytes, parse, Attempt(es)); } else { UserTells(g, e, parse, Attempt(es)); }
  }

  lemma {:induction false} RunAllAppends(g: State, es: seq<Event>, e: Event, parse: seq<byte> -> Parsed)
    ensures RunAll(g, es + [e], parse) == Step(RunAll(g, es, parse), e, parse)
    decreases |es|
  {
    hide Step;
    if es == [] {
      assert (es + [e])[1..] == [];
    } else {
      assert (es + [e])[1..] == es[1..] + [e];
      RunAllAppends(Step(g, es[0], parse), es[1..], e, parse);
    }
  }

  lemma {:induction false} RunTells(es: seq<Event>, parse: seq<byte> -> Parsed)
    ensures Told(RunAll(INITIAL, es, parse), Attempt(es))
    decreases |es|
  {
    hide Step, Attempt;
    if es != [] {
      var k := |es| - 1;
      assert es[..k] + [es[k]] == es;
      RunTells(es[..k], parse);
      RunAllAppends(INITIAL, es[..k], es[k], parse);
      StepTells(RunAll(INITIAL, es[..k], parse), es[..k], es[k], parse);
    }
  }

  /**
   * Every request carries what was entered for it: create_session the name of the attempt started last, an automatic
   * response its password, and any other response what was submitted at that very moment.
   */
  lemma RequestsCarryWhatWasEntered(es: seq<Event>, e: Event, parse: seq<byte> -> Parsed)
    ensures SendsRight(RunAll(INITIAL, es, parse).log, RunAll(INITIAL, es + [e], parse).log, Attempt(es), e)
  {
    hide Step, Attempt;
    RunTells(es, parse);
    RunAllAppends(INITIAL, es, e, parse);
    StepTells(RunAll(INITIAL, es, parse), es, e, parse);
  }

  // ---- What is sent when

  lemma FrameArrives(g: State, payload: seq<byte>, parse: seq<byte> -> Parsed)
    requires g.socket == Connected && g.readBuffer == [] && Fits(payload)
    ensures Step(g, Receive(Frame(payload)), parse) == AfterPayload(g, payload, parse)
  {
    assert [] + Frame(payload) == Frame(payload);
    OneFrameDrains(g, payload, parse);
  }

  /** A prompt during an attempt: the password entered with it, then the user, or an empty acknowledgement. */
  lemma PromptIsAnswered(es: seq<Event>, payload: seq<byte>, parse: seq<byte> -> Parsed)
    requires var g := RunAll(INITIAL, es, parse);
      && (g.phase == CreatingSession || g.phase == Authenticating) && g.socket == Connected && g.readBuffer == []
    requires Fits(payload) && parse(payload).Object? && parse(payload).json.kind == AuthMessage
    ensures var (g, g') := (RunAll(INITIAL, es, parse), RunAll(INITIAL, es + [Receive(Frame(payload))], parse));
      match parse(payload).json.prompt
      case Info => g'.log == g.log + [Handled(payload), Wrote(PostEmptyResponse)]
      case ErrorText => g'.log == g.log + [Handled(payload), Wrote(PostEmptyResponse)]
      case UnknownPrompt => g' == Did(g, Handled(payload))
      case _ =>
        && (g.credentialSubmitted ==> g'.log == g.log + [Handled(payload)] && g'.awaitingResponse)
        && (!g.credentialSubmitted ==>
              && Attempt(es).Some?
              && g'.log == g.log + [Handled(payload), Wrote(PostResponse(Attempt(es).value.1, true))]
              && g'.credentialSubmitted && !g'.awaitingResponse)
  {
    var g := RunAll(INITIAL, es, parse);
    RunTells(es, parse);
    RunAllAppends(INITIAL, es, Receive(Frame(payload)), parse);
    FrameArrives(g, payload, parse);
    hide Step, Attempt, RunAll, Frame;
    var answer := Wrote(PostResponse(g.pendingPassword, true));
    var empty := Wrote(PostEmptyResponse);
    assert g.log + [Handled(payload)] + [empty] == g.log + [Handled(payload), empty];
    assert g.log + [Handled(payload)] + [answer] == g.log + [Handled(payload), answer];
  }

  /** What does not parse, or is of no known kind, is skipped: the payload is used up and nothing else happens. */
  lemma UnknownIsSkipped(es: seq<Event>, payload: seq<byte>, parse: seq<byte> -> Parsed)
    requires var g := RunAll(INITIAL, es, parse); g.socket == Connected && g.readBuffer == []
    requires Fits(payload) && (parse(payload).Object? ==> parse(payload).json.kind == UnknownKind)
    ensures RunAll(INITIAL, es + [Receive(Frame(payload))], parse) == Did(RunAll(INITIAL, es, parse), Handled(payload))
  {
    RunAllAppends(INITIAL, es, Receive(Frame(payload)), parse);
    FrameArrives(RunAll(INITIAL, es, parse), payload, parse);
    hide RunAll, Step, Frame, RequestsCredential;
  }

  lemma RunsOn(g: State, e: Event, es: seq<Event>, parse: seq<byte> -> Parsed)
    ensures RunAll(g, [e] + es, parse) == RunAll(Step(g, e, parse), es, parse)
  {
    hide Step;
    assert ([e] + es)[1..] == es;
  }

  lemma FiveSteps(g: State, a: Event, b: Event, c: Event, d: Event, e: Event, parse: seq<byte> -> Parsed)
    ensures RunAll(g, [a, b, c, d, e], parse)
            == Step(Step(Step(Step(Step(g, a, parse), b, parse), c, parse), d, parse), e, parse)
  {
    hide Step;
    var g1 := Step(g, a, parse);
    var g2 := Step(g1, b, parse);
    var g3 := Step(g2, c, parse);
    assert [a, b, c, d, e] == [a] + [b, c, d, e];
    RunsOn(g, a, [b, c, d, e], parse);
    assert [b, c, d, e] == [b] + [c, d, e];
    RunsOn(g1, b, [c, d, e], parse);
    assert [c, d, e] == [c] + [d, e];
    RunsOn(g2, c, [d, e], parse);
    assert [d, e] == [d] + [e];
    RunsOn(g3, d, [e], parse);
    assert [e] == [e] + [];
    RunsOn(Step(g3, d, parse), e, [], parse);
  }

  /** What greetd says in a login by password alone, and what follows: a session is started, once, and stands. */
  lemma LoginCompletes(username: string, password: string, prompt: seq<byte>, success: seq<byte>,
                       parse: seq<byte> -> Parsed)
    requires !IsBlank(username) && Fits(prompt) && Fits(success)
    requires parse(prompt) == Object(Json(AuthMessage, Secret)) && parse(success).Object?
             && parse(success).json.kind == Success
    ensures var g := RunAll(INITIAL, [Start(username, password), Connect, Receive(Frame(prompt)),
                                      Receive(Frame(success)), StartUserSession, Receive(Frame(success))], parse);
      && g.phase == StartingSession && g.authenticated
      && g.log == [AuthStarted(Trimmed(username), password), Wrote(CreateSession(Trimmed(username))),
                   Handled(prompt), Wrote(PostResponse(password, true)), Handled(success), SuccessHandled,
                   Wrote(StartSession), Handled(success), SuccessHandled]
  {
    hide Trimmed, IsBlank, Frame, Drain;
    TrimmedEmptyExactly(username);
    var user := Trimmed(username);
    var begun := Step(INITIAL, Start(username, password), parse);
    var made := Step(begun, Connect, parse);
    FrameArrives(made, prompt, parse);
    var answered := AfterPayload(made, prompt, parse);
    FrameArrives(answered, success, parse);
    var accepted := AfterPayload(answered, success, parse);
    var starting := Step(accepted, StartUserSession, parse);
    FrameArrives(starting, success, parse);
    var start := Start(username, password);
    var es := [start, Connect, Receive(Frame(prompt)), Receive(Frame(success)), StartUserSession];
    FiveSteps(INITIAL, start, Connect, Receive(Frame(prompt)), Receive(Frame(success)), StartUserSession, parse);
    RunAllAppends(INITIAL, es, Receive(Frame(success)), parse);
    assert es + [Receive(Frame(success))] == [start, Connect, Receive(Frame(prompt)), Receive(Frame(success)),
                                              StartUserSession, Receive(Frame(success))];
  }

  /** greetd closes the connection when it hands over to the session: nothing of the login is taken back then. */
  lemma HandoverIsNoFailure(es: seq<Event>, parse: seq<byte> -> Parsed)
    requires RunAll(INITIAL, es, parse).phase == StartingSession
    ensures var (g, g') := (RunAll(INITIAL, es, parse), RunAll(INITIAL, es + [Fail], parse));
      g'.phase == StartingSession && g'.authenticated && g'.log == g.log && SuccessStands(g'.log)
  {
    InitialIsSafe();
    RunKeepsInvariant(INITIAL, es, parse);
    RunAllAppends(INITIAL, es, Fail, parse);
    hide SuccessStands, Safe, PasswordUnused, RunAll;
  }

  /** An attempt starts afresh: nothing of the attempts before it is left but the log. */
  lemma StartsAfresh(es: seq<Event>, username: string, password: string, parse: seq<byte> -> Parsed)
    requires !IsBlank(username)
    ensures RunAll(INITIAL, es + [Start(username, password)], parse)
            == RunAll(INITIAL, [Start(username, password)], parse)
                 .(log := RunAll(INITIAL, es, parse).log + [AuthStarted(Trimmed(username), password)])
  {
    TrimmedEmptyExactly(username);
    RunAllAppends(INITIAL, es, Start(username, password), parse);
    RunAllAppends(INITIAL, [], Start(username, password), parse);
    assert [] + [Start(username, password)] == [Start(username, password)];
    hide Trimmed, IsBlank;
  }

  // ---- After an attempt

  /** No attempt is under way. */
  predicate Over(g: State) {
    g.phase != CreatingSession && g.phase != Authenticating
  }

  /** Nothing is started that could begin one. */
  predicate NoneStarted(es: seq<Event>) {
    forall e | e in es :: e.Start? ==> IsBlank(e.username)
  }

  predicate OfAttempt(e: Effect) {
    e.AuthStarted? || (e.Wrote? && (e.request.CreateSession? || e.request.PostResponse?))
  }

  ghost predicate SendsNothing(before: seq<Effect>, after: seq<Effect>) {
    before <= after && forall i | |before| <= i < |after| :: !OfAttempt(after[i])
  }

  lemma {:induction false} HandleAllStaysOver(g: State, payloads: seq<seq<byte>>, parse: seq<byte> -> Parsed)
    requires Over(g)
    ensures Over(HandleAll(g, payloads, parse)) && SendsNothing(g.log, HandleAll(g, payloads, parse).log)
    decreases |payloads|
  {
    if payloads != [] {
      PayloadStaysOver(g, payloads[0], parse);
      hide AfterPayload, Over, OfAttempt;
      HandleAllStaysOver(AfterPayload(g, payloads[0], parse), payloads[1..], parse);
    }
  }

  lemma PayloadStaysOver(g: State, payload: seq<byte>, parse: seq<byte> -> Parsed)
    requires Over(g)
    ensures Over(AfterPayload(g, payload, parse)) && SendsNothing(g.log, AfterPayload(g, payload, parse).log)
  {
    hide AfterMessage;
    var h := Did(g, Handled(payload));
    if parse(payload).Object? { MessageStaysOver(h, parse(payload).json); }
  }

  lemma MessageStaysOver(g: State, m: Json)
    requires Over(g)
    ensures Over(AfterMessage(g, m)) && SendsNothing(g.log, AfterMessage(g, m).log)
  {
    hide RequestsCredential;
  }

  lemma StepStaysOver(g: State, e: Event, parse: seq<byte> -> Parsed)
    requires Over(g) && (e.Start? ==> IsBlank(e.username))
    ensures Over(Step(g, e, parse)) && SendsNothing(g.log, Step(g, e, parse).log)
  {
    hide Drain, Decode, HandleAll, Trimmed, IsBlank;
    if e.Start? { TrimmedEmptyExactly(e.username); }
    if e.Receive? && g.socket == Connected {
      var h := g.(readBuffer := g.readBuffer + e.bytes);
      DrainFollowsDecoder(h, parse);
      HandleAllStaysOver(h, Decode(h.readBuffer).payloads, parse);
    }
  }

  lemma {:induction false} RunStaysOver(g: State, es: seq<Event>, parse: seq<byte> -> Parsed)
    requires Over(g) && NoneStarted(es)
    ensures Over(RunAll(g, es, parse)) && SendsNothing(g.log, RunAll(g, es, parse).log)
    decreases |es|
  {
    hide Step, Over, OfAttempt, IsBlank;
    if es != [] {
      StepStaysOver(g, es[0], parse);
      RunStaysOver(Step(g, es[0], parse), es[1..], parse);
    }
  }

  /** After an error, a bad frame or a lost connection nothing of the attempt is sent until another one is started. */
  lemma FailedAttemptIsOver(es: seq<Event>, more: seq<Event>, parse: seq<byte> -> Parsed)
    requires var log := RunAll(INITIAL, es, parse).log; log != [] && Ends(log[|log| - 1])
    requires NoneStarted(more)
    ensures var g := RunAll(INITIAL, es, parse);
      g.phase == Idle && !g.awaitingResponse && SendsNothing(g.log, RunAll(g, more, parse).log)
  {
    hide Step;
    RunTells(es, parse);
    RunStaysOver(RunAll(INITIAL, es, parse), more, parse);
  }
}
