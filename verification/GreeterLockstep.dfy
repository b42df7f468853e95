/** Request and reply alternate between the greeter and a greetd that answers each request once. */
module GreeterLockstep {
  import opened Blank
  import opened Bytes
  import opened Greeter
  import opened GreeterFrames
  import Runs = GreeterRuns

  /** The requests greetd has not answered and the replies the greeter has not read, on the current connection. */
  datatype Link = Link(greeter: State, requests: seq<Request>, replies: seq<Json>)

  datatype Event =
    | Start(username: string, password: string)
    | Connect
    | Answer(reply: Json)
    | Read
    | Submit(password: string)
    | StartUserSession
    | Fail

  /** greetd answers only what it was asked; the user continues only when asked to. */
  predicate Enabled(l: Link, e: Event) {
    match e
    case Connect => l.greeter.socket == Connecting
    case Answer(_) => l.requests != []
    case Read => l.replies != []
    case Submit(_) => l.greeter.awaitingResponse
    case _ => true
  }

  /** The requests among the greeter's latest effects. */
  function Written(effects: seq<Effect>): seq<Request> {
    if effects == [] then []
    else (if effects[0].Wrote? then [effects[0].request] else []) + Written(effects[1..])
  }

  function Sends(l: Link, g: State): Link
    requires l.greeter.log <= g.log
  {
    l.(greeter := g, requests := l.requests + Written(g.log[|l.greeter.log|..]))
  }

  /** Every handler adds at most one effect, so at most one request. */
  lemma AtMostOneEffect(g: State, g': State)
    requires g.log <= g'.log && |g'.log| <= |g.log| + 1
    ensures Written(g'.log[|g.log|..]) ==
            if |g'.log| > |g.log| && g'.log[|g.log|].Wrote? then [g'.log[|g.log|].request] else []
  {
    var new_ := g'.log[|g.log|..];
    if new_ != [] { assert new_[1..] == []; }
  }

  function Next(l: Link, e: Event): Link
    requires Enabled(l, e)
  {
    var g := l.greeter;
    match e
    case Start(username, password) =>
      if Trimmed(username) == [] then l else Link(AfterStartAuth(g, username, password), [], [])
    case Connect => Sends(l, AfterCreateSession(g.(socket := Connected)))
    case Answer(reply) => l.(requests := l.requests[1..], replies := l.replies + [reply])
    case Read => Sends(l.(replies := l.replies[1..]), AfterMessage(g, l.replies[0]))
    case Submit(password) => Sends(l, AfterSubmit(g, password, false))
    case StartUserSession => Sends(l, AfterStartSession(g))
    case Fail => Link(AfterSocketError(g), [], [])
  }

  /** What the user and the socket do here is what they do in any run of the greeter; a blank name does nothing. */
  lemma NextIsStep(l: Link, e: Event, parse: seq<byte> -> Parsed)
    requires Enabled(l, e)
    ensures var g := l.greeter;
      match e
      case Start(username, password) =>
        && Next(l, e).greeter == Runs.Step(g, Runs.Start(username, password), parse)
        && (IsBlank(username) ==> Next(l, e) == l)
      case Connect => Next(l, e).greeter == Runs.Step(g, Runs.Connect, parse)
      case Submit(password) => Next(l, e).greeter == Runs.Step(g, Runs.Submit(password), parse)
      case StartUserSession => Next(l, e).greeter == Runs.Step(g, Runs.StartUserSession, parse)
      case Fail => Next(l, e).greeter == Runs.Step(g, Runs.Fail, parse)
      case Answer(_) => Next(l, e).greeter == g
      case Read => true
  {
    if e.Start? { TrimmedEmptyExactly(e.username); }
    hide Written, Trimmed, IsBlank, Drain;
  }

  function Outstanding(l: Link): nat {
    |l.requests| + |l.replies|
  }

  ghost predicate Invariant(l: Link) {
    var g := l.greeter;
    && Outstanding(l) <= 1
    && (Outstanding(l) == 1 ==> Busy(g) && !g.awaitingResponse && g.socket == Connected)
    && (g.phase == CreatingSession ==> !g.credentialSubmitted && !g.awaitingResponse)
    && (g.phase == Authenticated ==> !g.awaitingResponse)
    && (g.socket == Connecting ==> g.phase == CreatingSession)
  }

  lemma ReadKeepsInvariant(l: Link)
    requires Invariant(l) && l.replies != []
    ensures Invariant(Next(l, Read))
  {
    var g, m := l.greeter, l.replies[0];
    assert l.requests == [] && |l.replies| == 1;
    AtMostOneEffect(g, AfterMessage(g, m));
    hide Written, RequestsCredential;
  }

  lemma UserKeepsInvariant(l: Link, e: Event)
    requires Invariant(l) && Enabled(l, e) && (e.Connect? || e.Submit? || e.StartUserSession?)
    ensures Invariant(Next(l, e))
  {
    AtMostOneEffect(l.greeter, Next(l, e).greeter);
    hide Written;
  }

  lemma NextKeepsInvariant(l: Link, e: Event)
    requires Invariant(l) && Enabled(l, e)
    ensures Invariant(Next(l, e))
  {
    if e.Read? { ReadKeepsInvariant(l); }
    else if e.Connect? || e.Submit? || e.StartUserSession? { UserKeepsInvariant(l, e); }
  }

  datatype Outcome = Blocked | Reached(link: Link)

  function RunAll(l: Link, es: seq<Event>): Outcome
    decreases |es|
  {
    if es == [] then Reached(l)
    else if Enabled(l, es[0]) then RunAll(Next(l, es[0]), es[1..])
    else Blocked
  }

  const FRESH: Link := Link(INITIAL, [], [])

  lemma {:induction false} RunKeepsInvariant(l: Link, es: seq<Event>)
    requires Invariant(l)
    ensures RunAll(l, es).Reached? ==> Invariant(RunAll(l, es).link)
    decreases |es|
  {
    if es != [] && Enabled(l, es[0]) {
      NextKeepsInvariant(l, es[0]);
      RunKeepsInvariant(Next(l, es[0]), es[1..]);
    }
  }

  /** At most one request is ever outstanding on a connection, and while one is, the greeter shows itself busy. */
  lemma Lockstep(es: seq<Event>)
    requires RunAll(FRESH, es).Reached?
    ensures var l := RunAll(FRESH, es).link;
      && Outstanding(l) <= 1
      && (Outstanding(l) == 1 ==> Busy(l.greeter) && !l.greeter.awaitingResponse && l.greeter.socket == Connected)
  {
    RunKeepsInvariant(FRESH, es);
  }

  /** Without the rule for the user: a submission overtakes the outstanding request exactly while logging in. */
  lemma EagerUserBreaksLockstep(l: Link, password: string)
    requires Invariant(l)
    ensures Outstanding(Sends(l, AfterSubmit(l.greeter, password, false))) > 1 <==>
              Outstanding(l) == 1 && (l.greeter.phase == CreatingSession || l.greeter.phase == Authenticating)
  {
    AtMostOneEffect(l.greeter, AfterSubmit(l.greeter, password, false));
    hide Written;
  }

  /** And such a moment comes in every attempt: right after the connection is made. */
  lemma EveryAttemptCanBeOvertaken(username: string, stored: string, password: string)
    requires Trimmed(username) != []
    ensures var o := RunAll(FRESH, [Start(username, stored), Connect]);
      && o.Reached? && Outstanding(o.link) == 1
      && Outstanding(Sends(o.link, AfterSubmit(o.link.greeter, password, false))) == 2
  {
    hide Trimmed;
    var first := Next(FRESH, Start(username, stored));
    var l := Next(first, Connect);
    AtMostOneEffect(first.greeter, AfterCreateSession(first.greeter.(socket := Connected)));
    assert [Start(username, stored), Connect][1..] == [Connect] && [Connect][1..] == [];
    assert RunAll(first, [Connect]) == Reached(l) by { assert RunAll(l, []) == Reached(l); }
    AtMostOneEffect(l.greeter, AfterSubmit(l.greeter, password, false));
  }

  // ---- Replies arrive as bytes

  /** A message's effects do not depend on the log that they are appended to. */
  lemma EffectsIgnoreLog(g: State, m: Json, log: seq<Effect>) returns (d: seq<Effect>)
    ensures AfterMessage(g, m).log == g.log + d
    ensures AfterMessage(g.(log := log), m) == AfterMessage(g, m).(log := log + d)
  {
    hide RequestsCredential;
    d := AfterMessage(g, m).log[|g.log|..];
    if m.kind == AuthMessage {
      d := AuthEffectsIgnoreLog(g, m, log);
    } else {
      assert log + [] == log && g.log + [] == g.log;
    }
  }

  lemma AuthEffectsIgnoreLog(g: State, m: Json, log: seq<Effect>) returns (d: seq<Effect>)
    requires m.kind == AuthMessage
    ensures AfterMessage(g, m).log == g.log + d
    ensures AfterMessage(g.(log := log), m) == AfterMessage(g, m).(log := log + d)
  {
    hide RequestsCredential;
    d := AfterMessage(g, m).log[|g.log|..];
    assert log + [] == log && g.log + [] == g.log;
  }

  lemma HandledWritesNothing(payload: seq<byte>, d: seq<Effect>)
    ensures Written([Handled(payload)] + d) == Written(d)
  {
    assert ([Handled(payload)] + d)[1..] == d;
  }

  /** What was decoded is logged, and nothing else depends on that. */
  lemma HandledIsSilent(g: State, payload: seq<byte>, m: Json)
    ensures var read, h := AfterMessage(g, m), AfterMessage(Did(g, Handled(payload)), m);
      && h.(log := read.log) == read && g.log <= read.log && g.log <= h.log
      && Written(h.log[|g.log|..]) == Written(read.log[|g.log|..])
  {
    hide AfterMessage, Written;
    var d := EffectsIgnoreLog(g, m, g.log + [Handled(payload)]);
    assert (g.log + [Handled(payload)] + d)[|g.log|..] == [Handled(payload)] + d;
    assert (g.log + d)[|g.log|..] == d;
    HandledWritesNothing(payload, d);
  }

  /** A reply that arrives in any chunks is, once it is complete, one read of it. */
  lemma ChunkedReplyIsRead(l: Link, payload: seq<byte>, chunks: seq<seq<byte>>, parse: seq<byte> -> Parsed)
    requires Invariant(l) && l.replies != [] && l.greeter.readBuffer == []
    requires Fits(payload) && parse(payload) == Object(l.replies[0]) && Runs.Concat(chunks) == Frame(payload)
    ensures var g, read := Runs.Deliver(l.greeter, chunks, parse), Next(l, Read);
      && g.(log := read.greeter.log) == read.greeter && l.greeter.log <= g.log
      && Sends(l.(replies := l.replies[1..]), g).requests == read.requests
  {
    var g := l.greeter;
    assert Runs.AtRest(g) && [] + Frame(payload) == Frame(payload);
    Runs.DeliverIsOneDrain(g, chunks, parse);
    Runs.OneFrameDrains(g, payload, parse);
    HandledIsSilent(g, payload, l.replies[0]);
    hide Runs.Deliver, Drain, Written, AfterMessage, Frame;
  }

  /** And until it is complete, nothing happens but that the bytes wait. */
  lemma IncompleteReplyWaits(g: State, payload: seq<byte>, chunks: seq<seq<byte>>, parse: seq<byte> -> Parsed)
    requires g.socket == Connected && g.readBuffer == [] && Fits(payload)
    requires Runs.Concat(chunks) < Frame(payload)
    ensures Runs.Deliver(g, chunks, parse) == g.(readBuffer := Runs.Concat(chunks))
  {
    hide Drain, Runs.Deliver, Decode, Frame, Fits, Length, BadLength;
    var b := Runs.Concat(chunks);
    assert Runs.AtRest(g) by { DecodeUnfolds([]); }
    assert [] + b == b;
    Runs.DeliverIsOneDrain(g, chunks, parse);
    IncompleteIsNoFrame(payload, b);
    DrainUnfolds(g.(readBuffer := b), parse);
  }

  lemma IncompleteIsNoFrame(payload: seq<byte>, b: seq<byte>)
    requires Fits(payload) && b < Frame(payload)
    ensures !StartsBadly(b) && !StartsWithFrame(b)
  {
    if |b| >= 4 {
      FrameLength(payload, []);
      assert Frame(payload) + [] == Frame(payload);
      assert b[..4] == Frame(payload)[..4];
    }
  }
}
