/** The login screen's side of greetd-ipc(7): a phase machine fed by decoded messages. */
module Greeter {
  import opened Blank
  import opened Bytes
  import opened GreeterFrames

  datatype Phase = Idle | CreatingSession | Authenticating | Authenticated | StartingSession

  datatype Socket = Unconnected | Connecting | Connected

  /** A JSON object's "type", as far as the greeter tells types apart. */
  datatype Kind = AuthMessage | Success | Error | UnknownKind

  /** Its "auth_message_type"; Unstated is an absent or empty field. */
  datatype Prompt = Unstated | Secret | Visible | Info | ErrorText | UnknownPrompt

  datatype Json = Json(kind: Kind, prompt: Prompt)

  /** How a payload parses. */
  datatype Parsed = Malformed | Object(json: Json)

  datatype Request =
    | CreateSession(username: string)
    | PostResponse(response: string, stored: bool)  // stored when the password came from startAuth
    | PostEmptyResponse
    | StartSession

  /** What the greeter does, in order. */
  datatype Effect =
    | AuthStarted(username: string, password: string)
    | Wrote(request: Request)
    | Handled(payload: seq<byte>)
    | SuccessHandled
    | ErrorHandled
    | FrameRejected
    | SocketFailed

  datatype State = State(
    phase: Phase, authenticated: bool, awaitingResponse: bool, credentialSubmitted: bool,
    currentUser: string, pendingPassword: string, socket: Socket, readBuffer: seq<byte>, log: seq<Effect>)

  const INITIAL: State := State(Idle, false, false, false, "", "", Unconnected, [], [])

  function Busy(g: State): bool {
    g.phase == CreatingSession || (g.phase == Authenticating && !g.awaitingResponse) || g.phase == StartingSession
  }

  // ---- The steps, as functions of the state

  function Did(g: State, e: Effect): State {
    g.(log := g.log + [e])
  }

  /** sendJson: refuses to write while disconnected. */
  function Send(g: State, e: Effect): State {
    if g.socket == Connected then Did(g, e) else g
  }

  function AfterStartAuth(g: State, username: string, password: string): State {
    var user := Trimmed(username);
    if user == [] then g
    else Did(State(CreatingSession, false, false, false, user, password, Connecting, [], g.log),
             AuthStarted(user, password))
  }

  function AfterCreateSession(g: State): State {
    if g.phase != CreatingSession then g else Send(g, Wrote(CreateSession(g.currentUser)))
  }

  function AfterSubmit(g: State, password: string, stored: bool): State {
    if g.phase != CreatingSession && g.phase != Authenticating then g
    else Send(g.(phase := Authenticating, credentialSubmitted := true, awaitingResponse := false),
              Wrote(PostResponse(password, stored)))
  }

  function AfterStartSession(g: State): State {
    if g.phase != Authenticated then g else Send(g.(phase := StartingSession), Wrote(StartSession))
  }

  predicate RequestsCredential(m: Json) {
    m.prompt == Unstated || m.prompt == Secret || m.prompt == Visible
  }

  function AfterMessage(g: State, m: Json): State {
    if m.kind == AuthMessage then
      if RequestsCredential(m) && !g.credentialSubmitted then
        AfterSubmit(g.(pendingPassword := ""), g.pendingPassword, true)
      else if RequestsCredential(m) then g.(awaitingResponse := true)
      else if m.prompt == Info || m.prompt == ErrorText then Send(g, Wrote(PostEmptyResponse))
      else g
    else if m.kind == Success then
      if g.phase == StartingSession then Did(g, SuccessHandled)
      else Did(g.(phase := Authenticated, authenticated := true, awaitingResponse := false, pendingPassword := ""),
               SuccessHandled)
    else if m.kind == Error then
      Did(g.(phase := Idle, authenticated := false, awaitingResponse := false, pendingPassword := ""), ErrorHandled)
    else g
  }

  function AfterPayload(g: State, payload: seq<byte>, parse: seq<byte> -> Parsed): State {
    var h := Did(g, Handled(payload));
    if parse(payload).Malformed? then h else AfterMessage(h, parse(payload).json)
  }

  function AfterBadFrame(g: State): State {
    Did(g.(phase := Idle, authenticated := false, awaitingResponse := false, readBuffer := [], socket := Unconnected),
        FrameRejected)
  }

  function AfterSocketError(g: State): State {
    if g.phase == StartingSession then g.(socket := Unconnected)
    else Did(g.(phase := Idle, authenticated := false, awaitingResponse := false, pendingPassword := "",
                socket := Unconnected), SocketFailed)
  }

  /** Consumes the buffer frame by frame. */
  function Drain(g: State, parse: seq<byte> -> Parsed): State
    decreases |g.readBuffer|
  {
    if |g.readBuffer| < 4 then g
    else
      var n := Length(g.readBuffer);
      if BadLength(n) then AfterBadFrame(g)
      else if |g.readBuffer| < 4 + n then g
      else Drain(AfterPayload(g.(readBuffer := g.readBuffer[4 + n..]), g.readBuffer[4..4 + n], parse), parse)
  }

  predicate WholeFrame(g: State) {
    |g.readBuffer| >= 4 && !BadLength(Length(g.readBuffer)) && |g.readBuffer| >= 4 + Length(g.readBuffer)
  }

  function AfterFrame(g: State, parse: seq<byte> -> Parsed): State
    requires WholeFrame(g)
  {
    var n := Length(g.readBuffer);
    AfterPayload(g.(readBuffer := g.readBuffer[4 + n..]), g.readBuffer[4..4 + n], parse)
  }

  lemma DrainUnfolds(g: State, parse: seq<byte> -> Parsed)
    ensures WholeFrame(g) ==> Drain(g, parse) == Drain(AfterFrame(g, parse), parse)
    ensures |g.readBuffer| >= 4 && BadLength(Length(g.readBuffer)) ==> Drain(g, parse) == AfterBadFrame(g)
    ensures |g.readBuffer| < 4 || (!BadLength(Length(g.readBuffer)) && !WholeFrame(g)) ==> Drain(g, parse) == g
  {}

  // ---- The object

  class GreeterIPC {
    var phase: Phase
    var authenticated: bool
    var awaitingResponse: bool
    var credentialSubmitted: bool
    var currentUser: string
    var pendingPassword: string
    var socket: Socket
    var readBuffer: seq<byte>
    var log: seq<Effect>
    const parse: seq<byte> -> Parsed

    constructor (parse: seq<byte> -> Parsed)
      ensures Abs() == INITIAL && this.parse == parse
    {
      this.parse := parse;
      phase, authenticated, awaitingResponse, credentialSubmitted := Idle, false, false, false;
      currentUser, pendingPassword, socket, readBuffer, log := "", "", Unconnected, [], [];
    }

    function Abs(): State
      reads this
    {
      State(phase, authenticated, awaitingResponse, credentialSubmitted, currentUser, pendingPassword, socket,
            readBuffer, log)
    }

    method SendJson(e: Effect)
      modifies this
      ensures Abs() == Send(old(Abs()), e)
    {
      if socket != Connected { return; }
      log := log + [e];
    }

    method StartAuth(username: string, password: string)
      modifies this
      ensures Abs() == AfterStartAuth(old(Abs()), username, password)
      ensures IsBlank(username) ==> Abs() == old(Abs())
      ensures !IsBlank(username) ==>
                && phase == CreatingSession && socket == Connecting && readBuffer == []
                && currentUser == Trimmed(username) && pendingPassword == password
                && !authenticated && !awaitingResponse && !credentialSubmitted
    {
      TrimmedEmptyExactly(username);
      var requestedUser := Trimmed(username);
      if requestedUser == [] { return; }
      if socket != Unconnected { socket := Unconnected; }
      readBuffer := [];
      currentUser, pendingPassword := requestedUser, password;
      credentialSubmitted, awaitingResponse, authenticated := false, false, false;
      phase := CreatingSession;
      socket := Connecting;
      log := log + [AuthStarted(requestedUser, password)];
    }

    /** The socket reports that it is connected. */
    method OnConnected()
      modifies this
      ensures Abs() == AfterCreateSession(old(Abs()).(socket := Connected))
      ensures phase == CreatingSession ==> log == old(log) + [Wrote(CreateSession(currentUser))]
      ensures phase != CreatingSession ==> log == old(log)
    {
      socket := Connected;
      if phase != CreatingSession { return; }
      SendJson(Wrote(CreateSession(currentUser)));
    }

    method SubmitPassword(password: string, stored: bool)
      modifies this
      ensures Abs() == AfterSubmit(old(Abs()), password, stored)
      ensures old(phase) == CreatingSession || old(phase) == Authenticating ==>
                && phase == Authenticating && credentialSubmitted && !awaitingResponse
                && (socket == Connected ==> log == old(log) + [Wrote(PostResponse(password, stored))])
    {
      if phase != CreatingSession && phase != Authenticating { return; }
      phase := Authenticating;
      credentialSubmitted := true;
      awaitingResponse := false;
      SendJson(Wrote(PostResponse(password, stored)));
    }

    method StartSession()
      modifies this
      ensures Abs() == AfterStartSession(old(Abs()))
      ensures old(phase) == Authenticated && socket == Connected ==>
                phase == StartingSession && log == old(log) + [Wrote(Request.StartSession)]
      ensures old(phase) != Authenticated ==> Abs() == old(Abs())
    {
      if phase != Authenticated { return; }
      phase := StartingSession;
      SendJson(Wrote(Request.StartSession));
    }

    method OnError()
      modifies this
      ensures Abs() == AfterSocketError(old(Abs()))
    {
      socket := Unconnected;
      if phase == StartingSession { return; }
      phase := Idle;
      authenticated, awaitingResponse := false, false;
      pendingPassword := "";
      log := log + [SocketFailed];
    }

    method HandleMessage(m: Json)
      modifies this
      ensures Abs() == AfterMessage(old(Abs()), m)
    {
      if m.kind == AuthMessage {
        var requestsCredential := RequestsCredential(m);
        if requestsCredential && !credentialSubmitted {
          var password := pendingPassword;
          pendingPassword := "";
          SubmitPassword(password, true);
        } else if requestsCredential {
          awaitingResponse := true;
        } else if m.prompt == Info || m.prompt == ErrorText {
          SendJson(Wrote(PostEmptyResponse));
        }
        return;
      }
      if m.kind == Success {
        if phase == StartingSession {
          log := log + [SuccessHandled];
          return;
        }
        phase := Authenticated;
        authenticated, awaitingResponse := true, false;
        pendingPassword := "";
        log := log + [SuccessHandled];
        return;
      }
      if m.kind == Error {
        phase := Idle;
        authenticated, awaitingResponse := false, false;
        pendingPassword := "";
        log := log + [ErrorHandled];
      }
    }

    method OnReadyRead(available: seq<byte>)
      modifies this
      ensures Abs() == Drain(old(Abs()).(readBuffer := old(readBuffer) + available), parse)
    {
      hide AfterPayload, AfterBadFrame, Length, FromLE, Drain, BadLength;
      readBuffer := readBuffer + available;
      ghost var start := Abs();
      while true
        invariant Drain(Abs(), parse) == Drain(start, parse)
        decreases |readBuffer|
      {
        DrainUnfolds(Abs(), parse);
        if |readBuffer| < 4 { break; }
        var payloadLength := Length(readBuffer);
        if BadLength(payloadLength) {
          RejectFrame();
          return;
        }
        if |readBuffer| < 4 + payloadLength { break; }
        var payload := readBuffer[4..4 + payloadLength];
        readBuffer := readBuffer[4 + payloadLength..];
        HandlePayload(payload);
      }
    }

    /** The loop's exit on a length that cannot be right. */
    method RejectFrame()
      modifies this
      ensures Abs() == AfterBadFrame(old(Abs()))
    {
      phase := Idle;
      authenticated, awaitingResponse := false, false;
      readBuffer := [];
      socket := Unconnected;
      log := log + [FrameRejected];
    }

    /** The rest of the loop body: invalid JSON is skipped. */
    method HandlePayload(payload: seq<byte>)
      modifies this
      ensures Abs() == AfterPayload(old(Abs()), payload, parse)
      ensures readBuffer == old(readBuffer)
    {
      log := log + [Handled(payload)];
      var document := parse(payload);
      if document.Malformed? { return; }
      HandleMessage(document.json);
    }
  }
}
