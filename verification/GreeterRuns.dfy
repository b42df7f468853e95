/** What holds of the greeter over whole runs: however the bytes are cut, whatever the server sends. */
module GreeterRuns {
  import opened Blank
  import opened Bytes
  import opened GreeterFrames
  import opened Greeter

  // ---- Chunking

  function Concat(chunks: seq<seq<byte>>): seq<byte> {
    if chunks == [] then [] else chunks[0] + Concat(chunks[1..])
  }

  /** readyRead deliveries; once the socket is aborted nothing more is delivered. */
  function Deliver(g: State, chunks: seq<seq<byte>>, parse: seq<byte> -> Parsed): State
    decreases |chunks|
  {
    if chunks == [] || g.socket != Connected then g
    else Deliver(Drain(g.(readBuffer := g.readBuffer + chunks[0]), parse), chunks[1..], parse)
  }

  /** Nothing in the buffer is waiting to be handled. */
  predicate AtRest(g: State) {
    Decode(g.readBuffer) == Decoded([], g.readBuffer, false)
  }

  lemma PayloadIgnoresBuffer(g: State, payload: seq<byte>, parse: seq<byte> -> Parsed, b: seq<byte>)
    ensures AfterPayload(g, payload, parse).socket == g.socket
    ensures AfterPayload(g.(readBuffer := b), payload, parse) == AfterPayload(g, payload, parse).(readBuffer := b)
  {
    var h := Did(g, Handled(payload));
    assert Did(g.(readBuffer := b), Handled(payload)) == h.(readBuffer := b);
    if parse(payload).Object? { MessageIgnoresBuffer(h, parse(payload).json, b); }
  }

  lemma MessageIgnoresBuffer(g: State, m: Json, b: seq<byte>)
    ensures AfterMessage(g, m).socket == g.socket && AfterMessage(g, m).readBuffer == g.readBuffer
    ensures AfterMessage(g.(readBuffer := b), m) == AfterMessage(g, m).(readBuffer := b)
  {
    hide RequestsCredential;
    if m.kind == AuthMessage { AuthMessageIgnoresBuffer(g, m, b); }
  }

  lemma AuthMessageIgnoresBuffer(g: State, m: Json, b: seq<byte>)
    requires m.kind == AuthMessage
    ensures AfterMessage(g, m).socket == g.socket && AfterMessage(g, m).readBuffer == g.readBuffer
    ensures AfterMessage(g.(readBuffer := b), m) == AfterMessage(g, m).(readBuffer := b)
  {
    hide RequestsCredential;
  }

  /** Draining follows the decoder: its payloads are handled in order, then the rest is kept or the stream dropped. */
  lemma {:induction false} DrainFollowsDecoder(g: State, parse: seq<byte> -> Parsed)
    ensures var d := Decode(g.readBuffer);
            && Drain(g, parse) == Finish(HandleAll(g, d.payloads, parse), d)
            && AtRest(Drain(g, parse)) && |Drain(g, parse).readBuffer| < 4 + MAX_PAYLOAD
    decreases |g.readBuffer|
  {
    hide Drain, Decode, AfterPayload, AfterBadFrame, Length, BadLength;
    DrainUnfolds(g, parse);
    DecodeUnfolds(g.readBuffer);
    if WholeFrame(g) {
      var n := Length(g.readBuffer);
      var payload, rest := g.readBuffer[4..4 + n], g.readBuffer[4 + n..];
      PayloadIgnoresBuffer(g, payload, parse, rest);
      DrainFollowsDecoder(AfterFrame(g, parse), parse);
      var d := Decode(rest);
      assert ([payload] + d.payloads)[1..] == d.payloads;
      HandleAllKeepsBufferApart(AfterPayload(g, payload, parse), d.payloads, parse, rest);
      FinishKeepsBufferApart(HandleAll(AfterPayload(g, payload, parse), d.payloads, parse), d, rest);
    } else {
      NothingLeftAtRest(g, parse);
    }
  }

  lemma FinishKeepsBufferApart(g: State, d: Decoded, b: seq<byte>)
    ensures Finish(g.(readBuffer := b), d) == Finish(g, d.(payloads := []))
  {}

  /** A buffer that does not start with a frame is done with. */
  lemma NothingLeftAtRest(g: State, parse: seq<byte> -> Parsed)
    requires !WholeFrame(g)
    ensures AtRest(Drain(g, parse)) && |Drain(g, parse).readBuffer| < 4 + MAX_PAYLOAD
  {}

  function HandleAll(g: State, payloads: seq<seq<byte>>, parse: seq<byte> -> Parsed): State
    decreases |payloads|
  {
    if payloads == [] then g else HandleAll(AfterPayload(g, payloads[0], parse), payloads[1..], parse)
  }

  function Finish(g: State, d: Decoded): State {
    if d.aborted then AfterBadFrame(g) else g.(readBuffer := d.rest)
  }

  lemma {:induction false} HandleAllKeepsBufferApart(g: State, payloads: seq<seq<byte>>, parse: seq<byte> -> Parsed,
                                                     b: seq<byte>)
    ensures HandleAll(g.(readBuffer := b), payloads, parse) == HandleAll(g, payloads, parse).(readBuffer := b)
    ensures HandleAll(g, payloads, parse).socket == g.socket
    decreases |payloads|
  {
    if payloads != [] {
      PayloadIgnoresBuffer(g, payloads[0], parse, b);
      HandleAllKeepsBufferApart(AfterPayload(g, payloads[0], parse), payloads[1..], parse, b);
    }
  }

  lemma {:induction false} HandleAllAppends(g: State, a: seq<seq<byte>>, b: seq<seq<byte>>, parse: seq<byte> -> Parsed)
    ensures HandleAll(g, a + b, parse) == HandleAll(HandleAll(g, a, parse), b, parse)
    decreases |a|
  {
    if a == [] { assert a + b == b; }
    else {
      assert (a + b)[1..] == a[1..] + b;
      HandleAllAppends(AfterPayload(g, a[0], parse), a[1..], b, parse);
    }
  }

  lemma DrainInTwo(g: State, a: seq<byte>, b: seq<byte>, parse: seq<byte> -> Parsed)
    requires g.socket == Connected
    ensures var h := Drain(g.(readBuffer := a), parse);
            Drain(g.(readBuffer := a + b), parse)
            == if h.socket != Connected then h else Drain(h.(readBuffer := h.readBuffer + b), parse)
  {
    var d := Decode(a);
    DrainFollowsDecoder(g.(readBuffer := a), parse);
    DrainFollowsDecoder(g.(readBuffer := a + b), parse);
    DecodeContinues(a, b);
    HandleAllKeepsBufferApart(g, d.payloads, parse, a);
    HandleAllKeepsBufferApart(g, d.payloads, parse, a + b);
    if !d.aborted {
      var k, e := HandleAll(g, d.payloads, parse), Decode(d.rest + b);
      HandleAllAppends(g, d.payloads, e.payloads, parse);
      HandleAllKeepsBufferApart(g, d.payloads + e.payloads, parse, a + b);
      DrainFollowsDecoder(k.(readBuffer := d.rest + b), parse);
      HandleAllKeepsBufferApart(k, e.payloads, parse, d.rest + b);
    }
  }

  lemma DrainRests(g: State, parse: seq<byte> -> Parsed)
    ensures AtRest(Drain(g, parse)) && (AtRest(g) ==> Drain(g, parse) == g)
  {
    DrainFollowsDecoder(g, parse);
  }

  /** Delivering in pieces is delivering at once. */
  lemma {:induction false} DeliverIsOneDrain(g: State, chunks: seq<seq<byte>>, parse: seq<byte> -> Parsed)
    requires AtRest(g) && g.socket == Connected
    ensures Deliver(g, chunks, parse) == Drain(g.(readBuffer := g.readBuffer + Concat(chunks)), parse)
    decreases |chunks|
  {
    hide Drain, Decode, AtRest;
    var b := g.readBuffer;
    DrainRests(g, parse);
    if chunks == [] {
      assert b + [] == b;
    } else {
      var first, more := b + chunks[0], Concat(chunks[1..]);
      var h := Drain(g.(readBuffer := first), parse);
      DrainInTwo(g, first, more, parse);
      DrainRests(g.(readBuffer := first), parse);
      assert first + more == b + Concat(chunks);
      if h.socket == Connected { DeliverIsOneDrain(h, chunks[1..], parse); }
    }
  }

  /** Any two ways of cutting the same bytes lead to the same state: payloads handled, abort point, leftover buffer. */
  lemma ChunkingIndependence(g: State, a: seq<seq<byte>>, b: seq<seq<byte>>, parse: seq<byte> -> Parsed)
    requires AtRest(g) && g.socket == Connected && Concat(a) == Concat(b)
    ensures Deliver(g, a, parse) == Deliver(g, b, parse)
    ensures AtRest(Deliver(g, a, parse)) && |Deliver(g, a, parse).readBuffer| < 4 + MAX_PAYLOAD
  {
    DeliverIsOneDrain(g, a, parse);
    DeliverIsOneDrain(g, b, parse);
    DrainFollowsDecoder(g.(readBuffer := g.readBuffer + Concat(a)), parse);
  }

  /** An empty buffer takes one framed payload. */
  lemma OneFrameDrains(g: State, payload: seq<byte>, parse: seq<byte> -> Parsed)
    requires g.readBuffer == [] && Fits(payload)
    ensures Drain(g.(readBuffer := Frame(payload)), parse) == AfterPayload(g, payload, parse)
  {
    var h := g.(readBuffer := Frame(payload));
    assert Stream([payload]) == Frame(payload) by {
      assert [payload][1..] == [] && Frame(payload) + [] == Frame(payload);
    }
    FittingPayloadsComeBack([payload]);
    DrainFollowsDecoder(h, parse);
    hide Drain, Decode, AfterPayload, Frame, Stream;
    assert [payload][1..] == [];
    assert HandleAll(AfterPayload(h, payload, parse), [], parse) == AfterPayload(h, payload, parse);
    PayloadIgnoresBuffer(g, payload, parse, h.readBuffer);
    PayloadIgnoresBuffer(g, payload, parse, []);
  }

  // ---- Login safety

  datatype Event =
    | Start(username: string, password: string)
    | Connect
    | Receive(bytes: seq<byte>)
    | Submit(password: string)
    | StartUserSession
    | Fail

  function Step(g: State, e: Event, parse: seq<byte> -> Parsed): State {
    match e
    case Start(username, password) => AfterStartAuth(g, username, password)
    case Connect => if g.socket == Connecting then AfterCreateSession(g.(socket := Connected)) else g
    case Receive(bytes) => if g.socket == Connected then Drain(g.(readBuffer := g.readBuffer + bytes), parse) else g
    case Submit(password) => AfterSubmit(g, password, false)
    case StartUserSession => AfterStartSession(g)
    case Fail => AfterSocketError(g)
  }

  function RunAll(g: State, es: seq<Event>, parse: seq<byte> -> Parsed): State
    decreases |es|
  {
    if es == [] then g else RunAll(Step(g, es[0], parse), es[1..], parse)
  }

  predicate Resets(e: Effect) {
    e.AuthStarted? || e.ErrorHandled? || e.FrameRejected? || e.SocketFailed?
  }

  /** A success was handled and nothing has reset the attempt since. */
  ghost predicate SuccessStands(log: seq<Effect>) {
    exists j :: 0 <= j < |log| && log[j] == SuccessHandled && forall k :: j < k < |log| ==> !Resets(log[k])
  }

  /** The attempt begun with this password has not used it yet. */
  ghost predicate PasswordUnused(log: seq<Effect>, password: string) {
    exists j :: 0 <= j < |log| && log[j].AuthStarted? && log[j].password == password
                && forall k :: j < k < |log| ==> !log[k].AuthStarted? && !SendsStored(log[k])
  }

  predicate SendsStored(e: Effect) {
    e.Wrote? && e.request.PostResponse? && e.request.stored
  }

  /** Every start_session frame follows a standing success; the stored password goes out only if unused. */
  ghost predicate Safe(log: seq<Effect>) {
    && (forall i :: 0 <= i < |log| && log[i] == Wrote(StartSession) ==> SuccessStands(log[..i]))
    && (forall i :: 0 <= i < |log| && SendsStored(log[i]) ==> PasswordUnused(log[..i], log[i].request.response))
  }

  ghost predicate Invariant(g: State) {
    && Safe(g.log)
    && (g.authenticated <==> g.phase == Authenticated || g.phase == StartingSession)
    && (g.authenticated ==> g.pendingPassword == "" && SuccessStands(g.log))
    && (g.phase == Authenticating ==> g.credentialSubmitted)
    && (g.phase == CreatingSession && !g.credentialSubmitted ==> PasswordUnused(g.log, g.pendingPassword))
  }

  /** What one more effect needs, and what it leaves standing. */
  lemma OneMore(log: seq<Effect>, e: Effect)
    requires Safe(log)
    requires e == Wrote(StartSession) ==> SuccessStands(log)
    requires SendsStored(e) ==> PasswordUnused(log, e.request.response)
    ensures Safe(log + [e])
    ensures SuccessStands(log) && !Resets(e) ==> SuccessStands(log + [e])
    ensures e == SuccessHandled ==> SuccessStands(log + [e])
    ensures forall p :: PasswordUnused(log, p) && !e.AuthStarted? && !SendsStored(e) ==> PasswordUnused(log + [e], p)
    ensures e.AuthStarted? ==> PasswordUnused(log + [e], e.password)
  {
    var log' := log + [e];
    forall i | 0 <= i < |log'| ensures i < |log| ==> log'[..i] == log[..i]
                               ensures i == |log| ==> log'[..i] == log {}
    if SuccessStands(log) && !Resets(e) {
      var j :| 0 <= j < |log| && log[j] == SuccessHandled && forall k :: j < k < |log| ==> !Resets(log[k]);
      assert log'[j] == SuccessHandled;
    }
    if e == SuccessHandled { assert log'[|log|] == SuccessHandled; }
    forall p | PasswordUnused(log, p) && !e.AuthStarted? && !SendsStored(e) ensures PasswordUnused(log', p) {
      var j :| 0 <= j < |log| && log[j].AuthStarted? && log[j].password == p
               && forall k :: j < k < |log| ==> !log[k].AuthStarted? && !SendsStored(log[k]);
      assert log'[j] == log[j];
    }
    if e.AuthStarted? { assert log'[|log|] == e; }
  }

  lemma MessageKeepsInvariant(g: State, m: Json)
    requires Invariant(g)
    ensures Invariant(AfterMessage(g, m))
  {
    hide Safe, SuccessStands, PasswordUnused, RequestsCredential;
    var g' := AfterMessage(g, m);
    if |g'.log| > |g.log| {
      assert g'.log == g.log + [g'.log[|g.log|]];
      OneMore(g.log, g'.log[|g.log|]);
    } else {
      assert g'.log == g.log;
    }
  }

  lemma PayloadKeepsInvariant(g: State, payload: seq<byte>, parse: seq<byte> -> Parsed)
    requires Invariant(g)
    ensures Invariant(AfterPayload(g, payload, parse))
  {
    OneMore(g.log, Handled(payload));
    if parse(payload).Object? { MessageKeepsInvariant(Did(g, Handled(payload)), parse(payload).json); }
  }

  lemma {:induction false} HandleAllKeepsInvariant(g: State, payloads: seq<seq<byte>>, parse: seq<byte> -> Parsed)
    requires Invariant(g)
    ensures Invariant(HandleAll(g, payloads, parse))
    decreases |payloads|
  {
    if payloads != [] {
      PayloadKeepsInvariant(g, payloads[0], parse);
      HandleAllKeepsInvariant(AfterPayload(g, payloads[0], parse), payloads[1..], parse);
    }
  }

  lemma StepKeepsInvariant(g: State, e: Event, parse: seq<byte> -> Parsed)
    requires Invariant(g)
    ensures Invariant(Step(g, e, parse))
  {
    hide Safe, SuccessStands, PasswordUnused, Drain, Decode, Trimmed;
    var g' := Step(g, e, parse);
    if e.Receive? {
      if g.socket == Connected {
        var h := g.(readBuffer := g.readBuffer + e.bytes);
        var d := Decode(h.readBuffer);
        DrainFollowsDecoder(h, parse);
        HandleAllKeepsInvariant(h, d.payloads, parse);
        OneMore(HandleAll(h, d.payloads, parse).log, FrameRejected);
      }
    } else if |g'.log| > |g.log| {
      assert g'.log == g.log + [g'.log[|g.log|]];
      OneMore(g.log, g'.log[|g.log|]);
    } else {
      assert g'.log == g.log;
    }
  }

  lemma {:induction false} RunKeepsInvariant(g: State, es: seq<Event>, parse: seq<byte> -> Parsed)
    requires Invariant(g)
    ensures Invariant(RunAll(g, es, parse))
    decreases |es|
  {
    hide Invariant, Step;
    if es != [] {
      StepKeepsInvariant(g, es[0], parse);
      RunKeepsInvariant(Step(g, es[0], parse), es[1..], parse);
    }
  }

  /**
   * Login safety, for every order of user actions, socket events and server bytes: a start_session is sent only
   * while a success stands; the stored password goes out only if the attempt has not used it; and a greeter is
   * authenticated exactly in the last two phases, where it no longer stores the password.
   */
  lemma LoginSafety(es: seq<Event>, parse: seq<byte> -> Parsed)
    ensures var g := RunAll(INITIAL, es, parse);
      && (forall i :: 0 <= i < |g.log| && g.log[i] == Wrote(StartSession) ==> SuccessStands(g.log[..i]))
      && (forall i :: 0 <= i < |g.log| && SendsStored(g.log[i]) ==>
            PasswordUnused(g.log[..i], g.log[i].request.response))
      && (g.authenticated <==> g.phase == Authenticated || g.phase == StartingSession)
      && (g.authenticated ==> g.pendingPassword == "" && SuccessStands(g.log))
    ensures AtRest(RunAll(INITIAL, es, parse))
  {
    InitialIsSafe();
    RunKeepsInvariant(INITIAL, es, parse);
    RunsRest(INITIAL, es, parse);
  }

  lemma InitialIsSafe()
    ensures Invariant(INITIAL) && AtRest(INITIAL)
  {}

  /** Between events the buffer never holds a whole frame and stays below one maximal frame. */
  lemma {:induction false} RunsRest(g: State, es: seq<Event>, parse: seq<byte> -> Parsed)
    requires AtRest(g)
    ensures AtRest(RunAll(g, es, parse)) && |RunAll(g, es, parse).readBuffer| < 4 + MAX_PAYLOAD
    decreases |es|
  {
    if es != [] {
      var e := es[0];
      if e.Receive? { DrainRests(g.(readBuffer := g.readBuffer + e.bytes), parse); }
      RunsRest(Step(g, e, parse), es[1..], parse);
    }
  }
}
